/**
The erasure's data: the relation graph, the database as its statements see it
and the plan. A stored row has a physical identity (the `nat` it is filed
under), because a row of a keyless table, or one whose key holds a NULL, has no
other.
*/
module EraseModel {
  import opened Relational
  import opened TableOrder

  type Database = map<string, map<nat, Row>>

  function Rows(db: Database, t: string): map<nat, Row> {
    if t in db then db[t] else map[]
  }

  predicate HoldsKey(db: Database, t: string, key: seq<string>, ks: seq<Cell>) {
    exists id :: id in Rows(db, t) && Cells(Rows(db, t)[id], key) == ks
  }

  /** One reference holds: it has a NULL in it, or a parent row has that key. */
  predicate Satisfied(db: Database, e: Edge, row: Row) {
    Full(Cells(row, e.cols)) ==> HoldsKey(db, e.parent, e.key, Cells(row, e.cols))
  }

  /** Every foreign key of every managed table holds. */
  predicate Intact(g: Graph, db: Database) {
    forall e, id :: e in g.edges && g.Managed(e.child) && id in Rows(db, e.child) ==>
      Satisfied(db, e, Rows(db, e.child)[id])
  }

  /** Two rows of a keyed table never share a key without a NULL in it. */
  ghost predicate UniqueKeys(g: Graph, db: Database) {
    forall t, i, j :: t in g.tables && g.Key(t) != [] && i in Rows(db, t) && j in Rows(db, t) && i != j ==>
      !Full(Cells(Rows(db, t)[i], g.Key(t))) || Cells(Rows(db, t)[i], g.Key(t)) != Cells(Rows(db, t)[j], g.Key(t))
  }

  // ---- Statements ---------------------------------------------------------

  datatype Outcome<T> = Ok(value: T) | Refused

  /** The row's reference names one of the given rows of the parent table. */
  predicate NamesOne(db: Database, e: Edge, row: Row, ids: set<nat>) {
    Full(Cells(row, e.cols)) &&
    exists id :: id in ids && id in Rows(db, e.parent) && Cells(Rows(db, e.parent)[id], e.key) == Cells(row, e.cols)
  }

  /** A RESTRICT reference refuses even when the same statement deletes the row holding it. */
  predicate Restricted(g: Graph, db: Database, t: string, ids: set<nat>) {
    exists e, id :: e in g.edges && g.Managed(e.child) && e.action.Restrict? && e.parent == t
      && id in Rows(db, e.child) && NamesOne(db, e, Rows(db, e.child)[id], ids)
  }

  /** The columns ON DELETE SET NULL empties on a row of `child`. */
  function Detached(g: Graph, db: Database, t: string, ids: set<nat>, child: string, row: Row): set<string> {
    set e, c | e in g.edges && g.Managed(child) && e.action.SetNull? && e.parent == t && e.child == child
      && NamesOne(db, e, row, ids) && c in e.cols :: c
  }

  function AfterDelete(g: Graph, db: Database, t: string, ids: set<nat>): Database {
    map u | u in db :: map id | id in db[u] && !(u == t && id in ids) ::
      Cleared(db[u][id], Detached(g, db, t, ids, u, db[u][id]))
  }

  predicate EmptiesNotNull(g: Graph, db: Database, t: string, ids: set<nat>) {
    exists u, id :: u in db && id in db[u] && Stays(t, ids, u, id) && LosesNotNull(g, db, t, ids, u, db[u][id])
  }

  predicate Stays(t: string, ids: set<nat>, u: string, id: nat) {
    u == t ==> id !in ids
  }

  predicate LosesNotNull(g: Graph, db: Database, t: string, ids: set<nat>, child: string, row: Row) {
    Detached(g, db, t, ids, child, row) * g.NotNull(child) != {}
  }

  /** One DELETE, its SET NULL actions, and the constraint check at its end. */
  function DeleteRows(g: Graph, db: Database, t: string, ids: set<nat>): Outcome<Database> {
    if Restricted(g, db, t, ids) || EmptiesNotNull(g, db, t, ids) || !Intact(g, AfterDelete(g, db, t, ids)) then Refused
    else Ok(AfterDelete(g, db, t, ids))
  }

  /** One UPDATE setting the columns to NULL on the given rows, and its constraint check. */
  function AfterClear(db: Database, t: string, ids: set<nat>, cols: set<string>): Database {
    map u | u in db :: map id | id in db[u] :: if u == t && id in ids then Cleared(db[u][id], cols) else db[u][id]
  }

  function ClearColumns(g: Graph, db: Database, t: string, ids: set<nat>, cols: set<string>): Outcome<Database> {
    if (ids != {} && cols * g.NotNull(t) != {}) || !Intact(g, AfterClear(db, t, ids, cols)) then Refused
    else Ok(AfterClear(db, t, ids, cols))
  }

  // ---- The plan -----------------------------------------------------------

  /** A delete eraser: its match column equals the bound value and every Where column its value. */
  datatype Eraser = Eraser(table: string, column: string, value: nat, conds: seq<(string, nat)>) {
    predicate Matches(row: Row) {
      At(row, column) == Val(value) && forall w :: w in conds ==> At(row, w.0) == Val(w.1)
    }
  }

  /** `tables` is the delete order; `seeds` are the delete erasers of each table. */
  datatype Plan = Plan(tables: seq<string>, edges: seq<Edge>, blockers: seq<Edge>, cuts: seq<Edge>, seeds: map<string, seq<Eraser>>)
  {
    function Seeds(t: string): seq<Eraser> {
      if t in seeds then seeds[t] else []
    }
  }

  /** A reference no delete order satisfies. */
  ghost predicate OutOfOrder(tables: seq<string>, e: Edge) {
    if e.child == e.parent then e.action.Restrict? else Precedes(tables, e.parent, e.child)
  }

  /** What planErase promises of the plan it returns. */
  ghost predicate PlanFits(g: Graph, p: Plan) {
    && Distinct(p.tables)
    && (forall t :: t in p.tables ==> t in g.tables)
    && (forall t :: t in p.seeds ==> t in p.tables && (p.seeds[t] != [] ==> g.Key(t) != []))
    && (forall t :: t in p.tables && g.tables[t].owner != "" ==> g.Key(t) != [])
    && (forall e :: e in p.edges <==> e in g.edges && e.parent in p.tables && g.Follows(e))
    && (forall e :: e in p.edges ==> e.child in p.tables)
    && (forall e :: e in p.blockers <==> e in g.edges && e.parent in p.tables && e.Blocks() && g.Managed(e.child))
    && (forall e :: e in p.cuts <==> (e in p.edges || e in p.blockers) && e.child in p.tables && g.Key(e.child) != [] && OutOfOrder(p.tables, e))
    && (forall e :: e in p.cuts ==> Columns(e.cols) !! Columns(g.Key(e.child)))
    && (forall i, j :: 0 <= i < j < |p.tables| && g.Key(p.tables[j]) == [] ==> g.Key(p.tables[i]) == [])
  }

  // ---- Staging ------------------------------------------------------------

  /** Each keyed table's temp table: the keys copied out, by the row they came from. */
  type Staging = map<string, map<nat, seq<Cell>>>

  /** `EXISTS (SELECT 1 FROM tmp WHERE tmp.key = ks)`: NULL equals nothing. */
  predicate Held(st: Staging, t: string, ks: seq<Cell>) {
    t in st && Full(ks) && ks in st[t].Values
  }

  /** rowMatch: a keyed table matches its staging table, a keyless one its staged parents. */
  predicate RowMatch(g: Graph, p: Plan, st: Staging, t: string, row: Row) {
    if g.Key(t) != [] then Held(st, t, Cells(row, g.Key(t)))
    else exists e :: e in p.edges && e.child == t && Held(st, e.parent, Cells(row, e.cols))
  }

  /** The rows of `t` the erasure removes. */
  function Erased(g: Graph, p: Plan, st: Staging, db: Database, t: string): set<nat> {
    set id | id in Rows(db, t) && t in p.tables && RowMatch(g, p, st, t, Rows(db, t)[id])
  }

  /** A row the user owns. */
  predicate OwnedRow(g: Graph, user: nat, t: string, row: Row) {
    t in g.tables && g.tables[t].owner != "" && At(row, g.tables[t].owner) == Val(user)
  }

  /** A row some delete eraser of the table matches. */
  predicate SeedRow(p: Plan, t: string, row: Row) {
    exists i :: 0 <= i < |p.Seeds(t)| && p.Seeds(t)[i].Matches(row)
  }

  /** The row's key has no NULL in it. */
  predicate HasKey(g: Graph, t: string, row: Row) {
    Full(Cells(row, g.Key(t)))
  }

  /** The cascade edge leads from the parent row to a row with a key of its own. */
  ghost predicate CascadesTo(g: Graph, db: Database, e: Edge, pid: nat, id: nat) {
    && pid in Rows(db, e.parent) && id in Rows(db, e.child)
    && g.Key(e.child) != [] && HasKey(g, e.child, Rows(db, e.child)[id])
    && Full(Cells(Rows(db, e.child)[id], e.cols))
    && Cells(Rows(db, e.parent)[pid], e.key) == Cells(Rows(db, e.child)[id], e.cols)
  }

  /**
  A set of rows the erasure could stop at: it holds the user's rows and the
  erasers' matches, and every keyed row whose cascade edge names a row in it.
  */
  ghost predicate ClosedSet(g: Graph, p: Plan, db: Database, user: nat, rows: set<(string, nat)>) {
    && (forall t, id :: t in p.tables && id in Rows(db, t) && OwnedRow(g, user, t, Rows(db, t)[id]) ==> (t, id) in rows)
    && (forall t, id :: t in p.tables && id in Rows(db, t) && SeedRow(p, t, Rows(db, t)[id]) && HasKey(g, t, Rows(db, t)[id]) ==> (t, id) in rows)
    && (forall e, pid, id: nat :: e in p.edges && (e.parent, pid) in rows && CascadesTo(g, db, e, pid, id) ==> (e.child, id) in rows)
  }

  function StagedSet(st: Staging): set<(string, nat)> {
    set t, id | t in st && id in st[t] :: (t, id)
  }

  /** The staging tables hold copied keys of rows of their own tables, and exist for keyed plan tables only. */
  ghost predicate Copies(g: Graph, p: Plan, db: Database, st: Staging) {
    && (forall t :: t in st <==> t in p.tables && g.Key(t) != [])
    && (forall t, id :: t in st && id in st[t] ==> id in Rows(db, t) && st[t][id] == Cells(Rows(db, t)[id], g.Key(t)))
  }

  /** checkNullKeys: a row the erasure would remove has a NULL in its key. */
  predicate NullKeyRow(g: Graph, p: Plan, db: Database, user: nat, st: Staging, t: string, row: Row) {
    g.Key(t) != [] && !HasKey(g, t, row) &&
    (OwnedRow(g, user, t, row) || exists e :: e in p.edges && e.child == t && Held(st, e.parent, Cells(row, e.cols)))
  }

  predicate NullKeys(g: Graph, p: Plan, db: Database, user: nat, st: Staging) {
    exists t, id :: t in p.tables && id in Rows(db, t) && NullKeyRow(g, p, db, user, st, t, Rows(db, t)[id])
  }

  /** checkBlockers: a surviving row names a staged row through RESTRICT or NO ACTION. */
  predicate BlockedBy(g: Graph, p: Plan, db: Database, st: Staging, e: Edge) {
    exists id :: id in Rows(db, e.child) && Held(st, e.parent, Cells(Rows(db, e.child)[id], e.cols))
      && (e.child !in p.tables || !RowMatch(g, p, st, e.child, Rows(db, e.child)[id]))
  }

  predicate Blocked(g: Graph, p: Plan, db: Database, st: Staging) {
    exists e :: e in p.blockers && BlockedBy(g, p, db, st, e)
  }

  /** What a successful stage leaves: the least closed set, with nothing that refuses it. */
  ghost predicate Staged(g: Graph, p: Plan, db: Database, user: nat, st: Staging) {
    && Copies(g, p, db, st)
    && ClosedSet(g, p, db, user, StagedSet(st))
    && (forall rows :: ClosedSet(g, p, db, user, rows) ==> StagedSet(st) <= rows)
    && !NullKeys(g, p, db, user, st)
    && !Blocked(g, p, db, st)
  }
}
