/**
The delete phase: why no statement of it is refused and what it leaves.
*/
module EraseDelete {
  import opened Relational
  import opened TableOrder
  import opened EraseModel

  /** Everything the delete phase relies on, fixed when staging ends. */
  datatype Erasure = Erasure(g: Graph, p: Plan, st: Staging, user: nat, start: Database) {

    ghost predicate Ready() {
      && g.WellFormed() && PlanFits(g, p)
      && Staged(g, p, start, user, st)
      && Intact(g, start) && UniqueKeys(g, start)
    }

    /** Rows only ever go or lose cells. */
    ghost predicate Worn(db: Database) {
      && db.Keys == start.Keys
      && (forall t, id :: id in Rows(db, t) ==> id in Rows(start, t))
      && (forall t, id :: id in Rows(db, t) ==> Masks(Rows(start, t)[id], Rows(db, t)[id]))
    }

    /** No row's key has lost a cell. */
    ghost predicate KeysSame(db: Database) {
      forall t, id :: id in Rows(db, t) && id in Rows(start, t) ==> Cells(Rows(db, t)[id], g.Key(t)) == Cells(Rows(start, t)[id], g.Key(t))
    }

    /** The cut has been made: no erased row of the child names an erased parent row through it. */
    ghost predicate IsCut(db: Database, e: Edge) {
      forall id :: id in Rows(db, e.child) && id in Erased(g, p, st, start, e.child) ==>
        !Held(st, e.parent, Cells(Rows(db, e.child)[id], e.cols))
    }

    /** A row still there names its parent as it did when staging ended. */
    lemma NamesAsBefore(db: Database, e: Edge, id: nat)
      requires Worn(db) && id in Rows(db, e.child) && Full(Cells(Rows(db, e.child)[id], e.cols))
      ensures Cells(Rows(start, e.child)[id], e.cols) == Cells(Rows(db, e.child)[id], e.cols)
    {
      MasksKeepFullCells(Rows(start, e.child)[id], Rows(db, e.child)[id], e.cols);
    }

    /**
    The heart of it: a row that names a staged key through a relation the
    database enforces is itself erased, and where its table is deleted later
    the relation was cut.
    */
    lemma NamersAreErased(e: Edge, id: nat)
      requires Ready() && e in g.edges && g.Managed(e.child) && !e.action.SetNull? && e.parent in p.tables
      requires id in Rows(start, e.child) && Held(st, e.parent, Cells(Rows(start, e.child)[id], e.cols))
      ensures e.child in p.tables && id in Erased(g, p, st, start, e.child)
    {
      var row := Rows(start, e.child)[id];
      if e.Blocks() {
        assert e in p.blockers && !BlockedBy(g, p, start, st, e);
      } else {
        assert g.Follows(e) && e in p.edges && e.child in p.tables;
        if g.Key(e.child) != [] {
          var pid :| pid in st[e.parent] && st[e.parent][pid] == Cells(row, e.cols);
          assert (e.parent, pid) in StagedSet(st);
          assert !NullKeyRow(g, p, start, user, st, e.child, row);
          assert CascadesTo(g, start, e, pid, id);
          assert (e.child, id) in StagedSet(st);
          assert st[e.child][id] in st[e.child].Values;
        }
      }
    }

    /** Erased rows of a keyed table still match by key. */
    lemma ErasedKeyed(db: Database, t: string)
      requires Worn(db) && KeysSame(db) && g.Key(t) != []
      ensures Erased(g, p, st, db, t) == Erased(g, p, st, start, t) * Rows(db, t).Keys
    {
    }

    /** A parent row one of the rows of `db` names is staged exactly when it is erased. */
    lemma HeldWhenErased(db: Database, e: Edge, row: Row)
      requires Ready() && e in g.edges
      requires NamesOne(db, e, row, Erased(g, p, st, db, e.parent))
      ensures e.parent in p.tables && Held(st, e.parent, Cells(row, e.cols))
    {
    }

    // ---- What is left of one row ---------------------------------------------

    /** The row of `t` after the first `n` cuts, as the staged keys alone decide it. */
    function CutRow(t: string, row: Row, n: nat): Row
      requires n <= |p.cuts|
    {
      if n == 0 then row
      else
        var was, e := CutRow(t, row, n - 1), p.cuts[n - 1];
        if e.child == t && RowMatch(g, p, st, t, was) && Held(st, e.parent, Cells(was, e.cols)) then Cleared(was, Columns(e.cols)) else was
    }

    /** The columns deleting the staged rows of `parent` empties on a row of `t`. */
    function DetachedBy(parent: string, t: string, row: Row): set<string> {
      set e, c | e in g.edges && g.Managed(t) && e.action.SetNull? && e.parent == parent && e.child == t
        && Held(st, parent, Cells(row, e.cols)) && c in e.cols :: c
    }

    /** The row of `t` after the cuts and the deletes of the first `n` tables. */
    function Left(t: string, row: Row, n: nat): Row
      requires n <= |p.tables|
    {
      if n == 0 then CutRow(t, row, |p.cuts|)
      else var was := Left(t, row, n - 1); Cleared(was, DetachedBy(p.tables[n - 1], t, was))
    }

    /**
    A staged row has a NULL in its key by the time its own table is deleted. This
    is decided once staging is done, row by row, without running a statement.
    */
    ghost predicate KeyLost() {
      exists k, id :: 0 <= k < |p.tables| && id in Erased(g, p, st, start, p.tables[k]) && LosesKey(k, id)
    }

    ghost predicate LosesKey(k: nat, id: nat) {
      k < |p.tables| && id in Rows(start, p.tables[k]) && !HasKey(g, p.tables[k], Left(p.tables[k], Rows(start, p.tables[k])[id], k))
    }

    lemma {:induction false} CutRowMasks(t: string, row: Row, n: nat)
      requires n <= |p.cuts|
      ensures Masks(row, CutRow(t, row, n))
    {
      if n > 0 { CutRowMasks(t, row, n - 1); }
    }

    lemma {:induction false} LeftMasks(t: string, row: Row, n: nat)
      requires n <= |p.tables|
      ensures Masks(row, Left(t, row, n))
    {
      if n == 0 {
        CutRowMasks(t, row, |p.cuts|);
      } else {
        LeftMasks(t, row, n - 1);
      }
    }

    /** Every row still there is what is left of the row it was. */
    ghost predicate Tracks(db: Database, n: nat)
      requires n <= |p.tables|
    {
      forall t, id :: id in Rows(db, t) ==> id in Rows(start, t) && Rows(db, t)[id] == Left(t, Rows(start, t)[id], n)
    }

    /** Deleting a table's staged rows detaches what `DetachedBy` says: every reference still set names a row that is there. */
    lemma DetachesStaged(db: Database, t: string, u: string, id: nat)
      requires Ready() && Intact(g, db) && t in p.tables && id in Rows(db, u)
      ensures Detached(g, db, t, Erased(g, p, st, db, t), u, Rows(db, u)[id]) == DetachedBy(t, u, Rows(db, u)[id])
    {
      var ids, row := Erased(g, p, st, db, t), Rows(db, u)[id];
      forall e | e in g.edges && g.Managed(u) && e.parent == t && e.child == u
        ensures NamesOne(db, e, row, ids) <==> Held(st, t, Cells(row, e.cols))
      {
        if NamesOne(db, e, row, ids) { HeldWhenErased(db, e, row); }
        assert Satisfied(db, e, row);
      }
    }

    // ---- Deleting -----------------------------------------------------------

    /** Where the delete loop stands after the first `n` tables, whatever its statements matched. */
    ghost predicate Running(db: Database, n: nat) {
      && n <= |p.tables|
      && Worn(db) && Intact(g, db) && Tracks(db, n)
      && (forall t :: t !in p.tables[..n] ==> Rows(db, t).Keys == Rows(start, t).Keys)
      && KeylessKept(db, n) && SurvivorsKept(db)
    }

    /** The same when each statement so far removed exactly its staged rows. */
    ghost predicate Deleted(db: Database, n: nat) {
      && Running(db, n)
      && (forall e :: e in p.cuts ==> IsCut(db, e))
      && RowsGone(db, n)
    }

    /** The first `n` tables have lost exactly their erased rows. */
    ghost predicate RowsGone(db: Database, n: nat)
      requires n <= |p.tables|
    {
      forall t :: t in p.tables[..n] ==> Rows(db, t).Keys == Rows(start, t).Keys - Erased(g, p, st, start, t)
    }

    /** The keyless tables whose turn is to come hold their rows untouched. */
    ghost predicate KeylessKept(db: Database, n: nat) {
      forall i :: n <= i < |p.tables| && g.Key(p.tables[i]) == [] ==> Rows(db, p.tables[i]) == Rows(start, p.tables[i])
    }

    /** The statement at position `n` removes exactly the rows staging chose, less those that lost their key. */
    lemma DeletesStaged(db: Database, n: nat)
      requires Ready() && Running(db, n) && n < |p.tables|
      ensures var t := p.tables[n];
              && (forall id :: id in Erased(g, p, st, db, t) <==> id in Erased(g, p, st, start, t) && !LosesKey(n, id))
              && t !in p.tables[..n]
    {
      var t := p.tables[n];
      assert t !in p.tables[..n];
      if g.Key(t) != [] {
        forall id | id in Rows(start, t)
          ensures id in Erased(g, p, st, db, t) <==> id in Erased(g, p, st, start, t) && !LosesKey(n, id)
        {
          KeyedMatch(db, n, id);
        }
      } else {
        assert Rows(db, t) == Rows(start, t);
      }
    }

    lemma KeyedMatch(db: Database, n: nat, id: nat)
      requires Running(db, n) && n < |p.tables| && p.tables[n] !in p.tables[..n] && g.Key(p.tables[n]) != [] && id in Rows(start, p.tables[n])
      ensures id in Erased(g, p, st, db, p.tables[n]) <==> id in Erased(g, p, st, start, p.tables[n]) && !LosesKey(n, id)
    {
      var t := p.tables[n];
      assert id in Rows(db, t) && Rows(db, t)[id] == Left(t, Rows(start, t)[id], n);
      if HasKey(g, t, Rows(db, t)[id]) {
        MasksKeepFullCells(Rows(start, t)[id], Rows(db, t)[id], g.Key(t));
      }
    }

    /** With no key lost, it removes exactly those. */
    lemma DeletesAllStaged(db: Database, n: nat)
      requires Ready() && !KeyLost() && Running(db, n) && n < |p.tables|
      ensures Erased(g, p, st, db, p.tables[n]) == Erased(g, p, st, start, p.tables[n])
    {
      DeletesStaged(db, n);
    }

    /** An erased row still there belongs to a table whose turn has not passed. */
    lemma TurnNotPassed(db: Database, n: nat, t: string, id: nat)
      requires Deleted(db, n) && id in Rows(db, t) && id in Erased(g, p, st, start, t)
      ensures t !in p.tables[..n]
    {
    }

    /** A table that still has its turn after its parent's had the relation cut. */
    lemma LateChildIsCut(n: nat, e: Edge)
      requires g.WellFormed() && PlanFits(g, p) && n < |p.tables|
      requires e in g.edges && g.Managed(e.child) && !e.action.SetNull? && e.parent == p.tables[n]
      requires e.child in p.tables && e.child !in p.tables[..n]
      requires e.child != e.parent || e.action.Restrict?
      ensures e in p.cuts
    {
      assert e in p.edges || e in p.blockers by {
        if !e.Blocks() { assert g.Follows(e); }
      }
      var k :| 0 <= k < |p.tables| && p.tables[k] == e.child;
      assert forall i :: 0 <= i < n ==> p.tables[i] in p.tables[..n];
      assert g.Key(e.parent) != [];
      assert OutOfOrder(p.tables, e);
    }

    /** No row outside the statement names a row it deletes through an enforced relation. */
    lemma NobodyNames(db: Database, n: nat, e: Edge, id: nat)
      requires Ready() && !KeyLost() && Deleted(db, n) && n < |p.tables|
      requires e in g.edges && g.Managed(e.child) && !e.action.SetNull? && e.parent == p.tables[n]
      requires id in Rows(db, e.child)
      requires NamesOne(db, e, Rows(db, e.child)[id], Erased(g, p, st, db, e.parent))
      ensures e.child == e.parent && !e.action.Restrict? && id in Erased(g, p, st, db, e.parent)
    {
      HeldWhenErased(db, e, Rows(db, e.child)[id]);
      NamesAsBefore(db, e, id);
      NamersAreErased(e, id);
      TurnNotPassed(db, n, e.child, id);
      if e.child != e.parent || e.action.Restrict? {
        LateChildIsCut(n, e);
      } else {
        DeletesAllStaged(db, n);
      }
    }

    /** The given rows of `t` are gone and no others. */
    ghost predicate LosesOnly(db: Database, after: Database, t: string, ids: set<nat>) {
      forall u, id: nat {:trigger id in Rows(after, u)} {:trigger id in Rows(db, u)} :: id in Rows(after, u) <==> id in Rows(db, u) && !(u == t && id in ids)
    }

    lemma WornAfterDelete(db: Database, t: string, ids: set<nat>)
      requires Worn(db)
      ensures Worn(AfterDelete(g, db, t, ids))
      ensures LosesOnly(db, AfterDelete(g, db, t, ids), t, ids)
    {
    }

    /** A SET NULL relation that named a deleted row is left with a NULL in it. */
    lemma DetachEmpties(db: Database, t: string, ids: set<nat>, e: Edge, row: Row)
      requires g.WellFormed() && e in g.edges && g.Managed(e.child) && e.action.SetNull? && e.parent == t
      requires NamesOne(db, e, row, ids)
      ensures !Full(Cells(Cleared(row, Detached(g, db, t, ids, e.child, row)), e.cols))
    {
      var gone := Detached(g, db, t, ids, e.child, row);
      assert e.cols[0] in e.cols;
      assert e.cols[0] in gone;
      assert Cells(Cleared(row, gone), e.cols)[0] == Null;
    }

    /**
    A row some other row names has a key column in a SET NULL relation to a staged
    row: emptying it would leave the other row's reference naming nothing.
    */
    ghost predicate Strands() {
      exists x, e, pid, id :: x in g.edges && e in g.edges && StrandsOver(x, e, pid, id)
    }

    ghost predicate StrandsOver(x: Edge, e: Edge, pid: nat, id: nat) {
      && x.action.SetNull? && g.Managed(x.child) && !(Columns(x.cols) !! Columns(g.Key(x.child)))
      && pid in Rows(start, x.child) && Held(st, x.parent, Cells(Rows(start, x.child)[pid], x.cols))
      && g.Managed(e.child) && e.parent == x.child && id in Rows(start, e.child)
      && Full(Cells(Rows(start, e.child)[id], e.cols)) && Cells(Rows(start, e.child)[id], e.cols) == Cells(Rows(start, x.child)[pid], e.key)
    }

    /** The key of a row some row names stays as it is, or the reference is stranded. */
    lemma NamedKeepsKey(db: Database, n: nat, e: Edge, pid: nat, id: nat)
      requires Ready() && Running(db, n) && n < |p.tables|
      requires e in g.edges && g.Managed(e.child) && id in Rows(db, e.child) && pid in Rows(db, e.parent)
      requires Full(Cells(Rows(db, e.child)[id], e.cols)) && Cells(Rows(db, e.parent)[pid], e.key) == Cells(Rows(db, e.child)[id], e.cols)
      ensures var row := Rows(db, e.parent)[pid];
              Strands() || Cells(Cleared(row, Detached(g, db, p.tables[n], Erased(g, p, st, db, p.tables[n]), e.parent, row)), e.key) == Cells(row, e.key)
    {
      var t, row := p.tables[n], Rows(db, e.parent)[pid];
      var ids := Erased(g, p, st, db, t);
      var gone := Detached(g, db, t, ids, e.parent, row);
      if c :| c in gone && c in g.Key(e.parent) {
        var x :| x in g.edges && g.Managed(e.parent) && x.action.SetNull? && x.parent == t && x.child == e.parent && NamesOne(db, x, row, ids) && c in x.cols;
        HeldWhenErased(db, x, row);
        NamesAsBefore(db, x, pid);
        NamesAsBefore(db, e, id);
        MasksKeepFullCells(Rows(start, e.parent)[pid], row, e.key);
        assert c in Columns(x.cols) && c in Columns(g.Key(x.child));
        assert StrandsOver(x, e, pid, id);
      } else {
        SameCells(Cleared(row, gone), row, e.key);
      }
    }

    /** One surviving reference after the statement. */
    lemma ReferenceHolds(db: Database, n: nat, e: Edge, id: nat)
      requires Ready() && !KeyLost() && !Strands() && Deleted(db, n) && n < |p.tables|
      requires e in g.edges && g.Managed(e.child) && id in Rows(db, e.child)
      requires !(e.child == p.tables[n] && id in Erased(g, p, st, db, p.tables[n]))
      ensures var ids := Erased(g, p, st, db, p.tables[n]);
              var row := Rows(db, e.child)[id];
              Satisfied(AfterDelete(g, db, p.tables[n], ids), e, Cleared(row, Detached(g, db, p.tables[n], ids, e.child, row)))
    {
      var t := p.tables[n];
      var ids := Erased(g, p, st, db, t);
      var after := AfterDelete(g, db, t, ids);
      var row := Rows(db, e.child)[id];
      var row' := Cleared(row, Detached(g, db, t, ids, e.child, row));
      if Full(Cells(row', e.cols)) {
        MasksKeepFullCells(row, row', e.cols);
        assert Satisfied(db, e, row);
        var pid :| pid in Rows(db, e.parent) && Cells(Rows(db, e.parent)[pid], e.key) == Cells(row, e.cols);
        if e.parent == t && pid in ids {
          assert NamesOne(db, e, row, ids);
          if e.action.SetNull? {
            DetachEmpties(db, t, ids, e, row);
          } else {
            NobodyNames(db, n, e, id);
          }
        } else {
          NamedKeepsKey(db, n, e, pid, id);
          assert pid in Rows(after, e.parent);
          assert HoldsKey(after, e.parent, e.key, Cells(row', e.cols));
        }
      }
    }

    /** The foreign keys hold at the end of the statement. */
    lemma IntactAfterDelete(db: Database, n: nat)
      requires Ready() && !KeyLost() && !Strands() && Deleted(db, n) && n < |p.tables|
      ensures Intact(g, AfterDelete(g, db, p.tables[n], Erased(g, p, st, db, p.tables[n])))
    {
      var t := p.tables[n];
      var ids := Erased(g, p, st, db, t);
      var after := AfterDelete(g, db, t, ids);
      hide Ready, KeyLost, Strands, Deleted, Erased, Detached, Satisfied;
      forall e, id | e in g.edges && g.Managed(e.child) && id in Rows(after, e.child)
        ensures Satisfied(after, e, Rows(after, e.child)[id])
      {
        ReferenceHolds(db, n, e, id);
      }
    }

    /** No RESTRICT reference stops the statement. */
    lemma NothingRestricts(db: Database, n: nat)
      requires Ready() && !KeyLost() && Deleted(db, n) && n < |p.tables|
      ensures !Restricted(g, db, p.tables[n], Erased(g, p, st, db, p.tables[n]))
    {
      var t := p.tables[n];
      var ids := Erased(g, p, st, db, t);
      forall e, id | e in g.edges && g.Managed(e.child) && e.action.Restrict? && e.parent == t && id in Rows(db, e.child)
        ensures !NamesOne(db, e, Rows(db, e.child)[id], ids)
      {
        if NamesOne(db, e, Rows(db, e.child)[id], ids) {
          NobodyNames(db, n, e, id);
        }
      }
    }

    /** A row names an erased one through a SET NULL relation over a NOT NULL column. */
    ghost predicate Undetachable() {
      exists e, id :: e in g.edges && g.Managed(e.child) && e.action.SetNull? && Columns(e.cols) * g.NotNull(e.child) != {}
        && id in Rows(start, e.child) && Held(st, e.parent, Cells(Rows(start, e.child)[id], e.cols))
    }

    lemma RefusalIsUndetachable(db: Database, n: nat)
      requires Ready() && Running(db, n) && n < |p.tables|
      requires EmptiesNotNull(g, db, p.tables[n], Erased(g, p, st, db, p.tables[n]))
      ensures Undetachable()
    {
      var t := p.tables[n];
      var ids := Erased(g, p, st, db, t);
      var u, id :| u in db && id in db[u] && Stays(t, ids, u, id) && LosesNotNull(g, db, t, ids, u, db[u][id]);
      var row := db[u][id];
      var c :| c in Detached(g, db, t, ids, u, row) * g.NotNull(u);
      assert c in Detached(g, db, t, ids, u, row);
      var e :| e in g.edges && e.action.SetNull? && e.parent == t && e.child == u && NamesOne(db, e, row, ids) && c in e.cols;
      assert c in Columns(e.cols) * g.NotNull(e.child);
      HeldWhenErased(db, e, row);
      NamesAsBefore(db, e, id);
    }

    lemma KeylessUntouched(db: Database, n: nat, i: nat)
      requires Ready() && KeylessKept(db, n) && n < i < |p.tables| && g.Key(p.tables[i]) == []
      ensures Rows(AfterDelete(g, db, p.tables[n], Erased(g, p, st, db, p.tables[n])), p.tables[i]) == Rows(db, p.tables[i])
    {
      var t, u := p.tables[n], p.tables[i];
      var ids := Erased(g, p, st, db, t);
      assert g.Key(t) == [];
      forall id | id in Rows(db, u) ensures Cleared(db[u][id], Detached(g, db, t, ids, u, db[u][id])) == db[u][id] {
        assert forall e :: e in g.edges ==> e.parent != t;
        assert Detached(g, db, t, ids, u, db[u][id]) == {};
      }
    }

    /** A DELETE that goes through moves the loop on, whatever it matched. */
    lemma RunsOn(db: Database, n: nat)
      requires Ready() && Running(db, n) && n < |p.tables|
      requires Intact(g, AfterDelete(g, db, p.tables[n], Erased(g, p, st, db, p.tables[n])))
      ensures Running(AfterDelete(g, db, p.tables[n], Erased(g, p, st, db, p.tables[n])), n + 1)
    {
      var t := p.tables[n];
      var ids := Erased(g, p, st, db, t);
      hide Ready, Worn, Intact, Erased, AfterDelete, KeylessKept, Tracks, SurvivorsKept;
      WornAfterDelete(db, t, ids);
      KeylessAfterDelete(db, n);
      TracksAfterDelete(db, n);
      DeleteSparesSurvivors(db, n);
      OthersStay(db, AfterDelete(g, db, t, ids), n, ids);
    }

    lemma KeysLess(db: Database, after: Database, t: string, ids: set<nat>, u: string)
      requires LosesOnly(db, after, t, ids)
      ensures Rows(after, u).Keys == Rows(db, u).Keys - if u == t then ids else {}
    {
      forall id ensures id in Rows(after, u).Keys <==> id in Rows(db, u).Keys - if u == t then ids else {} {
        assert id in Rows(after, u) <==> id in Rows(db, u) && !(u == t && id in ids);
      }
    }

    lemma OthersStay(db: Database, after: Database, n: nat, ids: set<nat>)
      requires n < |p.tables| && forall t :: t !in p.tables[..n] ==> Rows(db, t).Keys == Rows(start, t).Keys
      requires LosesOnly(db, after, p.tables[n], ids)
      ensures forall t :: t !in p.tables[..n + 1] ==> Rows(after, t).Keys == Rows(start, t).Keys
    {
      assert p.tables[..n + 1] == p.tables[..n] + [p.tables[n]];
      forall t | t !in p.tables[..n + 1] ensures Rows(after, t).Keys == Rows(db, t).Keys {
        KeysLess(db, after, p.tables[n], ids, t);
      }
    }

    lemma TracksAfterDelete(db: Database, n: nat)
      requires Ready() && Running(db, n) && n < |p.tables|
      ensures Tracks(AfterDelete(g, db, p.tables[n], Erased(g, p, st, db, p.tables[n])), n + 1)
    {
      var t := p.tables[n];
      var ids := Erased(g, p, st, db, t);
      var after := AfterDelete(g, db, t, ids);
      hide Ready, Worn, Intact, Erased, KeylessKept, SurvivorsKept, Detached, DetachedBy;
      forall u, id | id in Rows(after, u) ensures id in Rows(start, u) && Rows(after, u)[id] == Left(u, Rows(start, u)[id], n + 1) {
        DetachesStaged(db, t, u, id);
      }
    }

    lemma KeylessAfterDelete(db: Database, n: nat)
      requires Ready() && KeylessKept(db, n) && n < |p.tables|
      ensures KeylessKept(AfterDelete(g, db, p.tables[n], Erased(g, p, st, db, p.tables[n])), n + 1)
    {
      var after := AfterDelete(g, db, p.tables[n], Erased(g, p, st, db, p.tables[n]));
      forall i | n + 1 <= i < |p.tables| && g.Key(p.tables[i]) == []
        ensures Rows(after, p.tables[i]) == Rows(start, p.tables[i])
      {
        KeylessUntouched(db, n, i);
      }
    }

    /**
    One DELETE of the loop while no key is lost: only a NOT NULL column SET NULL
    would empty, or a reference it would strand, refuses it; and the loop moves on.
    */
    lemma DeleteSucceeds(db: Database, n: nat)
      requires Ready() && !KeyLost() && Deleted(db, n) && n < |p.tables|
      ensures var t := p.tables[n];
              var ids := Erased(g, p, st, db, t);
              var next := DeleteRows(g, db, t, ids);
              && (next.Refused? ==> EmptiesNotNull(g, db, t, ids) || Strands())
              && (next.Ok? ==> Deleted(next.value, n + 1))
    {
      var t := p.tables[n];
      var ids := Erased(g, p, st, db, t);
      var after := AfterDelete(g, db, t, ids);
      assert Worn(db) && Running(db, n);
      hide Ready, Worn, Intact, IsCut, Erased, AfterDelete, RowsGone, KeylessKept, Restricted, EmptiesNotNull, Running, KeyLost, Strands;
      NothingRestricts(db, n);
      if !Strands() { IntactAfterDelete(db, n); }
      if Intact(g, after) {
        RunsOn(db, n);
        RowsAfterDelete(db, n);
        CutsAfterDelete(db, n);
      }
    }

    lemma CutsAfterDelete(db: Database, n: nat)
      requires Worn(db) && n < |p.tables| && forall e :: e in p.cuts ==> IsCut(db, e)
      ensures forall e :: e in p.cuts ==> IsCut(AfterDelete(g, db, p.tables[n], Erased(g, p, st, db, p.tables[n])), e)
    {
      var after := AfterDelete(g, db, p.tables[n], Erased(g, p, st, db, p.tables[n]));
      WornAfterDelete(db, p.tables[n], Erased(g, p, st, db, p.tables[n]));
      forall e | e in p.cuts ensures IsCut(after, e) {
        CutSurvives(db, after, e);
      }
    }

    lemma RowsAfterDelete(db: Database, n: nat)
      requires Ready() && !KeyLost() && Deleted(db, n) && n < |p.tables|
      ensures RowsGone(AfterDelete(g, db, p.tables[n], Erased(g, p, st, db, p.tables[n])), n + 1)
    {
      var t := p.tables[n];
      var ids := Erased(g, p, st, db, t);
      var after := AfterDelete(g, db, t, ids);
      DeletesStaged(db, n);
      DeletesAllStaged(db, n);
      assert Rows(db, t).Keys == Rows(start, t).Keys;
      hide Ready, Intact, IsCut, Erased, AfterDelete, KeylessKept, KeyLost, Tracks;
      WornAfterDelete(db, t, ids);
      RowsGoneStep(db, after, n, ids);
    }

    lemma RowsGoneStep(db: Database, after: Database, n: nat, ids: set<nat>)
      requires n < |p.tables| && RowsGone(db, n) && p.tables[n] !in p.tables[..n]
      requires Rows(db, p.tables[n]).Keys == Rows(start, p.tables[n]).Keys
      requires ids == Erased(g, p, st, start, p.tables[n])
      requires LosesOnly(db, after, p.tables[n], ids)
      ensures RowsGone(after, n + 1)
    {
      hide Erased;
      assert p.tables[..n + 1] == p.tables[..n] + [p.tables[n]];
      forall t ensures Rows(after, t).Keys == Rows(db, t).Keys - if t == p.tables[n] then ids else {} {
        KeysLess(db, after, p.tables[n], ids, t);
      }
    }

    lemma CutSurvives(db: Database, after: Database, e: Edge)
      requires Worn(db) && Worn(after) && IsCut(db, e)
      requires forall id :: id in Rows(after, e.child) ==> id in Rows(db, e.child) && Masks(Rows(db, e.child)[id], Rows(after, e.child)[id])
      ensures IsCut(after, e)
    {
      forall id | id in Rows(after, e.child) && id in Erased(g, p, st, start, e.child)
        ensures !Held(st, e.parent, Cells(Rows(after, e.child)[id], e.cols))
      {
        if Full(Cells(Rows(after, e.child)[id], e.cols)) {
          MasksKeepFullCells(Rows(db, e.child)[id], Rows(after, e.child)[id], e.cols);
        }
      }
    }

    // ---- Cutting ------------------------------------------------------------

    /** The erased rows of the child that name an erased row through the edge. */
    function CutRows(db: Database, e: Edge): set<nat> {
      set id | id in Rows(db, e.child) && RowMatch(g, p, st, e.child, Rows(db, e.child)[id])
        && Held(st, e.parent, Cells(Rows(db, e.child)[id], e.cols))
    }

    function Cut(db: Database, e: Edge): Outcome<Database> {
      ClearColumns(g, db, e.child, CutRows(db, e), Columns(e.cols))
    }

    /** A row the erasure keeps differs from before only where a SET NULL relation named an erased row. */
    ghost predicate DetachedAt(t: string, id: nat, c: string) {
      id in Rows(start, t) &&
      exists e :: e in g.edges && e.child == t && e.action.SetNull? && c in e.cols && Held(st, e.parent, Cells(Rows(start, t)[id], e.cols))
    }

    ghost predicate SurvivorsKept(db: Database) {
      forall t, id, c :: id in Rows(db, t) && id in Rows(start, t) && id !in Erased(g, p, st, start, t) ==>
        At(Rows(db, t)[id], c) == At(Rows(start, t)[id], c) || DetachedAt(t, id, c)
    }

    /** Every row is what the first `n` cuts leave of it. */
    ghost predicate CutTracks(db: Database, n: nat)
      requires n <= |p.cuts|
    {
      forall t, id :: id in Rows(db, t) ==> id in Rows(start, t) && Rows(db, t)[id] == CutRow(t, Rows(start, t)[id], n)
    }

    lemma CutTracksOn(db: Database, n: nat)
      requires n < |p.cuts| && CutTracks(db, n)
      ensures CutTracks(AfterClear(db, p.cuts[n].child, CutRows(db, p.cuts[n]), Columns(p.cuts[n].cols)), n + 1)
    {
      var e := p.cuts[n];
      var after := AfterClear(db, e.child, CutRows(db, e), Columns(e.cols));
      hide RowMatch, Held;
      forall t, id | id in Rows(after, t) ensures id in Rows(start, t) && Rows(after, t)[id] == CutRow(t, Rows(start, t)[id], n + 1) {
        assert id in Rows(db, t);
      }
    }

    /** Where the cuts stand after the first `n`. */
    ghost predicate CutUpTo(db: Database, n: nat) {
      && n <= |p.cuts|
      && Worn(db) && KeysSame(db) && Intact(g, db) && CutTracks(db, n)
      && (forall i :: 0 <= i < n ==> IsCut(db, p.cuts[i]))
      && (forall t :: Rows(db, t).Keys == Rows(start, t).Keys)
      && (forall t :: g.Key(t) == [] ==> Rows(db, t) == Rows(start, t))
      && SurvivorsKept(db)
    }

    lemma CutsStart()
      requires Ready()
      ensures CutUpTo(start, 0)
    {
    }

    lemma WornAfterCut(db: Database, e: Edge)
      requires PlanFits(g, p) && Worn(db) && KeysSame(db) && e in p.cuts
      ensures var after := AfterClear(db, e.child, CutRows(db, e), Columns(e.cols));
              Worn(after) && KeysSame(after) && forall t :: Rows(after, t).Keys == Rows(db, t).Keys
    {
      var after := AfterClear(db, e.child, CutRows(db, e), Columns(e.cols));
      forall t, id | id in Rows(after, t)
        ensures Masks(Rows(start, t)[id], Rows(after, t)[id])
        ensures Cells(Rows(after, t)[id], g.Key(t)) == Cells(Rows(start, t)[id], g.Key(t))
      {
        SameCells(Rows(after, t)[id], Rows(db, t)[id], g.Key(t));
      }
    }

    lemma IntactAfterCut(db: Database, e: Edge)
      requires g.WellFormed() && PlanFits(g, p) && Worn(db) && KeysSame(db) && Intact(g, db) && e in p.cuts
      ensures Intact(g, AfterClear(db, e.child, CutRows(db, e), Columns(e.cols)))
    {
      hide CutRows, Erased;
      var after := AfterClear(db, e.child, CutRows(db, e), Columns(e.cols));
      WornAfterCut(db, e);
      hide PlanFits;
      forall x, id | x in g.edges && g.Managed(x.child) && id in Rows(after, x.child)
        ensures Satisfied(after, x, Rows(after, x.child)[id])
      {
        var row, row' := Rows(db, x.child)[id], Rows(after, x.child)[id];
        if Full(Cells(row', x.cols)) {
          assert Masks(row, row');
          MasksKeepFullCells(row, row', x.cols);
          assert Satisfied(db, x, row);
          var pid :| pid in Rows(db, x.parent) && Cells(Rows(db, x.parent)[pid], x.key) == Cells(row, x.cols);
          assert Cells(Rows(after, x.parent)[pid], g.Key(x.parent)) == Cells(Rows(db, x.parent)[pid], g.Key(x.parent));
        }
      }
    }

    lemma CutMakesCut(db: Database, e: Edge)
      requires Ready() && Worn(db) && KeysSame(db) && e in p.cuts
      ensures IsCut(AfterClear(db, e.child, CutRows(db, e), Columns(e.cols)), e)
    {
      var after := AfterClear(db, e.child, CutRows(db, e), Columns(e.cols));
      assert |e.cols| > 0 && e.cols[0] in e.cols;
      ErasedKeyed(db, e.child);
      forall id | id in Rows(after, e.child) && id in Erased(g, p, st, start, e.child)
        ensures !Held(st, e.parent, Cells(Rows(after, e.child)[id], e.cols))
      {
        if id in CutRows(db, e) {
          assert Cells(Rows(after, e.child)[id], e.cols)[0] == Null;
        }
      }
    }

    /**
    One UPDATE of cutReferences. It is refused exactly when a column it must
    empty is NOT NULL; no foreign key ever stops it.
    */
    lemma CutStep(db: Database, n: nat)
      requires Ready() && CutUpTo(db, n) && n < |p.cuts|
      ensures Cut(db, p.cuts[n]).Refused? <==>
                CutRows(db, p.cuts[n]) != {} && Columns(p.cuts[n].cols) * g.NotNull(p.cuts[n].child) != {}
      ensures Cut(db, p.cuts[n]).Ok? ==> CutUpTo(Cut(db, p.cuts[n]).value, n + 1)
    {
      hide Worn, KeysSame, CutTracks, Intact, SurvivorsKept, IsCut, CutRows, AfterClear, PlanFits, Staged, UniqueKeys, Columns;
      var e := p.cuts[n];
      WornAfterCut(db, e);
      IntactAfterCut(db, e);
      CutMakesCut(db, e);
      CutsSurvive(db, n);
      CutTracksOn(db, n);
      CutSparesSurvivors(db, e);
    }

    lemma CutsSurvive(db: Database, n: nat)
      requires Ready() && CutUpTo(db, n) && n < |p.cuts|
      ensures var after := AfterClear(db, p.cuts[n].child, CutRows(db, p.cuts[n]), Columns(p.cuts[n].cols));
              forall i :: 0 <= i < n ==> IsCut(after, p.cuts[i])
    {
      hide CutRows, Erased, Intact, Staged, SurvivorsKept, CutTracks, IsCut, KeysSame;
      var e := p.cuts[n];
      var after := AfterClear(db, e.child, CutRows(db, e), Columns(e.cols));
      WornAfterCut(db, e);
      forall i | 0 <= i < n ensures IsCut(after, p.cuts[i]) {
        CutSurvives(db, after, p.cuts[i]);
      }
    }

    lemma CutSparesSurvivors(db: Database, e: Edge)
      requires Ready() && Worn(db) && KeysSame(db) && e in p.cuts && SurvivorsKept(db)
      requires forall t :: Rows(db, t).Keys == Rows(start, t).Keys
      ensures SurvivorsKept(AfterClear(db, e.child, CutRows(db, e), Columns(e.cols)))
      ensures forall t :: g.Key(t) == [] ==> Rows(AfterClear(db, e.child, CutRows(db, e), Columns(e.cols)), t) == Rows(db, t)
    {
      hide *;
      CutRowsAreErased(db, e);
      ClearSpares(db, e.child, CutRows(db, e), Columns(e.cols), Erased(g, p, st, start, e.child));
      ClearKeepsTables(db, e.child, CutRows(db, e), Columns(e.cols));
    }

    lemma CutRowsAreErased(db: Database, e: Edge)
      requires Ready() && Worn(db) && KeysSame(db) && e in p.cuts
      ensures CutRows(db, e) <= Erased(g, p, st, start, e.child) && g.Key(e.child) != []
    {
      ErasedKeyed(db, e.child);
    }

    lemma ClearSpares(db: Database, t: string, ids: set<nat>, cols: set<string>, erased: set<nat>)
      requires SurvivorsKept(db) && erased == Erased(g, p, st, start, t) && ids <= erased
      ensures SurvivorsKept(AfterClear(db, t, ids, cols))
    {
      hide Erased, DetachedAt, Cleared;
      var after := AfterClear(db, t, ids, cols);
      forall u, id | id in Rows(after, u) && id !in Erased(g, p, st, start, u) ensures id in Rows(db, u) && Rows(after, u)[id] == Rows(db, u)[id] {
      }
    }

    lemma ClearKeepsTables(db: Database, t: string, ids: set<nat>, cols: set<string>)
      ensures forall u :: u != t ==> Rows(AfterClear(db, t, ids, cols), u) == Rows(db, u)
    {
      hide Cleared;
    }

    lemma CutsEnd(db: Database)
      requires Ready() && CutUpTo(db, |p.cuts|)
      ensures Deleted(db, 0)
    {
      assert Tracks(db, 0);
      forall e | e in p.cuts ensures IsCut(db, e) {
        var i :| 0 <= i < |p.cuts| && p.cuts[i] == e;
      }
    }

    lemma DeleteSparesSurvivors(db: Database, n: nat)
      requires Ready() && Worn(db) && n < |p.tables| && SurvivorsKept(db)
      ensures SurvivorsKept(AfterDelete(g, db, p.tables[n], Erased(g, p, st, db, p.tables[n])))
    {
      var t := p.tables[n];
      var ids := Erased(g, p, st, db, t);
      var after := AfterDelete(g, db, t, ids);
      forall u, id, c | id in Rows(after, u) && id in Rows(start, u) && id !in Erased(g, p, st, start, u)
        ensures At(Rows(after, u)[id], c) == At(Rows(start, u)[id], c) || DetachedAt(u, id, c)
      {
        var row := Rows(db, u)[id];
        if c in Detached(g, db, t, ids, u, row) {
          var e :| e in g.edges && e.action.SetNull? && e.parent == t && e.child == u && NamesOne(db, e, row, ids) && c in e.cols;
          HeldWhenErased(db, e, row);
          NamesAsBefore(db, e, id);
        }
      }
    }

    // ---- The whole phase ----------------------------------------------------

    function CutFrom(db: Database, n: nat): Outcome<Database>
      requires n <= |p.cuts|
      decreases |p.cuts| - n
    {
      if n == |p.cuts| then Ok(db)
      else if Cut(db, p.cuts[n]).Refused? then Refused
      else CutFrom(Cut(db, p.cuts[n]).value, n + 1)
    }

    function DeleteFrom(db: Database, n: nat): Outcome<Database>
      requires n <= |p.tables|
      decreases |p.tables| - n
    {
      if n == |p.tables| then Ok(db)
      else
        var next := DeleteRows(g, db, p.tables[n], Erased(g, p, st, db, p.tables[n]));
        if next.Refused? then Refused else DeleteFrom(next.value, n + 1)
    }

    /** deleteStaged: the cuts, then one DELETE per table in plan order. */
    function DeleteStaged(): Outcome<Database> {
      match CutFrom(start, 0)
      case Refused => Refused
      case Ok(db) => DeleteFrom(db, 0)
    }

    /** An erased row must be cut from another through a NOT NULL column. */
    ghost predicate Uncuttable() {
      exists e, id :: e in p.cuts && Columns(e.cols) * g.NotNull(e.child) != {}
        && id in Erased(g, p, st, start, e.child) && Held(st, e.parent, Cells(Rows(start, e.child)[id], e.cols))
    }

    lemma {:induction false} CutsRun(db: Database, n: nat)
      requires Ready() && CutUpTo(db, n)
      ensures CutFrom(db, n).Ok? ==> CutUpTo(CutFrom(db, n).value, |p.cuts|)
      ensures CutFrom(db, n).Refused? ==> Uncuttable()
      decreases |p.cuts| - n
    {
      hide *;
      CutFromMeans(db, n);
      if n < |p.cuts| {
        CutStep(db, n);
        if Cut(db, p.cuts[n]).Refused? {
          RefusalIsUncuttable(db, n);
        } else {
          CutsRun(Cut(db, p.cuts[n]).value, n + 1);
        }
      }
    }

    lemma CutFromMeans(db: Database, n: nat)
      requires CutUpTo(db, n)
      ensures n <= |p.cuts| && (n == |p.cuts| ==> CutFrom(db, n) == Ok(db))
      ensures n < |p.cuts| ==> CutFrom(db, n) == if Cut(db, p.cuts[n]).Refused? then Refused else CutFrom(Cut(db, p.cuts[n]).value, n + 1)
    {
      hide Cut, Worn, Intact, IsCut, SurvivorsKept;
    }

    lemma RefusalIsUncuttable(db: Database, n: nat)
      requires Ready() && CutUpTo(db, n) && n < |p.cuts| && Cut(db, p.cuts[n]).Refused?
      ensures Uncuttable()
    {
      var e := p.cuts[n];
      CutStep(db, n);
      hide Intact, SurvivorsKept, IsCut, Cut;
      var id :| id in CutRows(db, e);
      ErasedKeyed(db, e.child);
      NamesAsBefore(db, e, id);
    }

    lemma {:induction false} DeletesRun(db: Database, n: nat)
      requires Ready() && !KeyLost() && Deleted(db, n)
      ensures DeleteFrom(db, n).Refused? ==> Undetachable() || Strands()
      ensures DeleteFrom(db, n).Ok? ==> Deleted(DeleteFrom(db, n).value, |p.tables|)
      decreases |p.tables| - n
    {
      hide *;
      DeletedRuns(db, n);
      DeleteFromMeans(db, n);
      if n < |p.tables| {
        DeleteSucceeds(db, n);
        var next := DeleteRows(g, db, p.tables[n], Erased(g, p, st, db, p.tables[n]));
        if next.Ok? {
          DeletesRun(next.value, n + 1);
        } else if EmptiesNotNull(g, db, p.tables[n], Erased(g, p, st, db, p.tables[n])) {
          RefusalIsUndetachable(db, n);
        }
      }
    }

    lemma DeletedRuns(db: Database, n: nat)
      requires Deleted(db, n)
      ensures Running(db, n) && n <= |p.tables|
    {
      hide Worn, Intact, Tracks, KeylessKept, SurvivorsKept, IsCut, RowsGone;
    }

    lemma DeleteFromMeans(db: Database, n: nat)
      requires n <= |p.tables|
      ensures n == |p.tables| ==> DeleteFrom(db, n) == Ok(db)
      ensures n < |p.tables| ==>
                var next := DeleteRows(g, db, p.tables[n], Erased(g, p, st, db, p.tables[n]));
                DeleteFrom(db, n) == if next.Refused? then Refused else DeleteFrom(next.value, n + 1)
    {
      hide DeleteRows, Erased;
    }

    /** Whatever the statements matched, a run that goes through leaves what is left of each row. */
    lemma {:induction false} RunsThrough(db: Database, n: nat)
      requires Ready() && Running(db, n) && DeleteFrom(db, n).Ok?
      ensures Running(DeleteFrom(db, n).value, |p.tables|)
      decreases |p.tables| - n
    {
      hide *;
      RunningMeans(db, n);
      DeleteFromMeans(db, n);
      if n < |p.tables| {
        AcceptedDelete(g, db, p.tables[n], Erased(g, p, st, db, p.tables[n]));
        RunsOn(db, n);
        RunsThrough(AfterDelete(g, db, p.tables[n], Erased(g, p, st, db, p.tables[n])), n + 1);
      }
    }

    lemma RunningMeans(db: Database, n: nat)
      requires Running(db, n)
      ensures n <= |p.tables| && Worn(db) && Intact(g, db) && Tracks(db, n) && KeylessKept(db, n) && SurvivorsKept(db)
      ensures forall t :: t !in p.tables[..n] ==> Rows(db, t).Keys == Rows(start, t).Keys
    {
    }

    lemma AcceptedDelete(g: Graph, db: Database, t: string, ids: set<nat>)
      ensures DeleteRows(g, db, t, ids).Ok? ==>
                DeleteRows(g, db, t, ids).value == AfterDelete(g, db, t, ids) && Intact(g, AfterDelete(g, db, t, ids)) && !EmptiesNotNull(g, db, t, ids)
    {
      hide Restricted, EmptiesNotNull, Intact, AfterDelete;
    }

    /** No row left names an erased row, through a relation of any kind. */
    ghost predicate NothingDangles(db: Database) {
      forall e, id :: e in g.edges && g.Managed(e.child) && id in Rows(db, e.child) ==>
        !Held(st, e.parent, Cells(Rows(db, e.child)[id], e.cols))
    }

    /**
    Once staging passed, what can refuse the erasure is a NOT NULL column a cut or
    a SET NULL relation goes through, a reference SET NULL would strand, or a
    staged row that loses its key first. One that goes through leaves every
    foreign key intact and took from the rows left behind nothing but SET NULL
    references to erased rows; and it removed exactly the staged rows if and only
    if no staged row lost its key before its turn. Then no row left names an
    erased one.
    */
    lemma ErasureSucceeds()
      requires Ready()
      ensures DeleteStaged().Refused? ==> Uncuttable() || Undetachable() || Strands() || KeyLost()
      ensures DeleteStaged().Ok? ==> var db := DeleteStaged().value;
                Intact(g, db) && Worn(db) && SurvivorsKept(db) && (OnlyStagedGone(db) <==> !KeyLost()) && (!KeyLost() ==> NothingDangles(db))
    {
      hide *;
      DeleteStagedMeans();
      CutsStart();
      CutsRun(start, 0);
      if CutFrom(start, 0).Ok? {
        var db := CutFrom(start, 0).value;
        CutsEnd(db);
        DeletedRuns(db, 0);
        if !KeyLost() { DeletesRun(db, 0); }
        if DeleteFrom(db, 0).Ok? {
          var done := DeleteFrom(db, 0).value;
          RunsThrough(db, 0);
          RunningMeans(done, |p.tables|);
          if KeyLost() {
            LostRowRemains(db);
          } else {
            EveryTableDone(done);
            AllGone(done);
          }
        }
      }
    }

    /** Each table has lost exactly the rows staging chose. */
    ghost predicate OnlyStagedGone(db: Database) {
      forall t :: Rows(db, t).Keys == Rows(start, t).Keys - Erased(g, p, st, start, t)
    }

    /** A row of a keyed table whose key holds a NULL is out of reach of every later DELETE. */
    lemma {:induction false} KeylessRowSurvives(db: Database, n: nat, t: string, id: nat)
      requires n <= |p.tables| && g.Key(t) != [] && DeleteFrom(db, n).Ok?
      requires id in Rows(db, t) && !HasKey(g, t, Rows(db, t)[id])
      ensures id in Rows(DeleteFrom(db, n).value, t)
      decreases |p.tables| - n
    {
      if n < |p.tables| {
        var u := p.tables[n];
        var ids := Erased(g, p, st, db, u);
        var after := AfterDelete(g, db, u, ids);
        assert !(t == u && id in ids);
        var row := Rows(db, t)[id];
        var i :| 0 <= i < |g.Key(t)| && Cells(row, g.Key(t))[i] == Null;
        assert Cells(Rows(after, t)[id], g.Key(t))[i] == Null;
        KeylessRowSurvives(after, n + 1, t, id);
      }
    }

    /** So a staged row that lost its key before its turn is there at the end. */
    lemma {:induction false} LosingRowSurvives(db: Database, n: nat, k: nat, id: nat)
      requires Ready() && Running(db, n) && n <= k < |p.tables| && DeleteFrom(db, n).Ok?
      requires id in Rows(start, p.tables[k]) && LosesKey(k, id)
      ensures id in Rows(DeleteFrom(db, n).value, p.tables[k])
      decreases |p.tables| - n
    {
      hide *;
      RunningMeans(db, n);
      DeleteFromMeans(db, n);
      if n < k {
        AcceptedDelete(g, db, p.tables[n], Erased(g, p, st, db, p.tables[n]));
        RunsOn(db, n);
        LosingRowSurvives(AfterDelete(g, db, p.tables[n], Erased(g, p, st, db, p.tables[n])), n + 1, k, id);
      } else {
        LosingRow(db, n, id);
        KeylessRowSurvives(db, n, p.tables[n], id);
      }
    }

    lemma LosingRow(db: Database, n: nat, id: nat)
      requires Ready() && Running(db, n) && n < |p.tables| && id in Rows(start, p.tables[n]) && LosesKey(n, id)
      ensures id in Rows(db, p.tables[n]) && g.Key(p.tables[n]) != [] && !HasKey(g, p.tables[n], Rows(db, p.tables[n])[id])
    {
      assert p.tables[n] !in p.tables[..n];
    }

    lemma LostRowRemains(db: Database)
      requires Ready() && Running(db, 0) && DeleteFrom(db, 0).Ok? && KeyLost()
      ensures !OnlyStagedGone(DeleteFrom(db, 0).value)
    {
      var k, id :| 0 <= k < |p.tables| && id in Erased(g, p, st, start, p.tables[k]) && LosesKey(k, id);
      assert id in Rows(start, p.tables[k]);
      hide Ready, Running, LosesKey;
      LosingRowSurvives(db, 0, k, id);
    }

    lemma DeleteStagedMeans()
      ensures CutFrom(start, 0).Refused? ==> DeleteStaged() == Refused
      ensures CutFrom(start, 0).Ok? ==> DeleteStaged() == DeleteFrom(CutFrom(start, 0).value, 0)
    {
      hide CutFrom, DeleteFrom;
    }

    lemma EveryTableDone(db: Database)
      requires Ready() && Deleted(db, |p.tables|)
      ensures Worn(db) && Intact(g, db) && OnlyStagedGone(db)
    {
      hide Worn, Intact, IsCut, KeylessKept, Tracks, SurvivorsKept;
      assert p.tables[..|p.tables|] == p.tables;
      forall t ensures Rows(db, t).Keys == Rows(start, t).Keys - Erased(g, p, st, start, t) {
        UnplannedUntouched(t);
      }
    }

    lemma UnplannedUntouched(t: string)
      requires Ready()
      ensures t !in p.tables ==> Erased(g, p, st, start, t) == {}
    {
    }

    lemma AllGone(db: Database)
      requires Ready() && Worn(db) && Intact(g, db) && OnlyStagedGone(db)
      ensures NothingDangles(db)
    {
      forall e, id | e in g.edges && g.Managed(e.child) && id in Rows(db, e.child)
        ensures !Held(st, e.parent, Cells(Rows(db, e.child)[id], e.cols))
      {
        assert Satisfied(db, e, Rows(db, e.child)[id]);
        if Full(Cells(Rows(db, e.child)[id], e.cols)) { NotHeldByRow(db, e, Cells(Rows(db, e.child)[id], e.cols)); }
      }
    }

    /** A key some row left has is not a staged one. */
    lemma NotHeldByRow(db: Database, e: Edge, ks: seq<Cell>)
      requires Ready() && Worn(db) && OnlyStagedGone(db) && e in g.edges && Full(ks) && HoldsKey(db, e.parent, e.key, ks)
      ensures !Held(st, e.parent, ks)
    {
      var t := e.parent;
      var pid :| pid in Rows(db, t) && Cells(Rows(db, t)[pid], e.key) == ks;
      assert Masks(Rows(start, t)[pid], Rows(db, t)[pid]);
      MasksKeepFullCells(Rows(start, t)[pid], Rows(db, t)[pid], e.key);
      hide Worn, Intact, UniqueKeys, Staged;
      assert pid !in Erased(g, p, st, start, t);
      if Held(st, t, ks) { HeldIsPlanned(t, ks); }
    }

    lemma HeldIsPlanned(t: string, ks: seq<Cell>)
      requires Ready() && Held(st, t, ks)
      ensures t in p.tables && g.Key(t) != []
    {
    }
  }
}
