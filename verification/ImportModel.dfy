/**
The restore's view of the database: tables as lists of rows in the order they
were written, and the two statements ImportData issues.
*/
module ImportModel {
  import opened Relational
  import opened RowOrder

  type Store = map<string, seq<Row>>

  function Table(s: Store, t: string): seq<Row> {
    if t in s then s[t] else []
  }

  predicate HoldsKey(rows: seq<Row>, key: seq<string>, ks: seq<Cell>) {
    exists i :: 0 <= i < |rows| && Cells(rows[i], key) == ks
  }

  predicate Satisfied(s: Store, e: Edge, row: Row) {
    Full(Cells(row, e.cols)) ==> HoldsKey(Table(s, e.parent), e.key, Cells(row, e.cols))
  }

  /** Every foreign key holds. */
  predicate Intact(g: Graph, s: Store) {
    forall e, i :: e in g.edges && 0 <= i < |Table(s, e.child)| ==> Satisfied(s, e, Table(s, e.child)[i])
  }

  predicate NotNullHolds(g: Graph, t: string, row: Row) {
    forall c :: c in g.NotNull(t) ==> At(row, c) != Null
  }

  datatype Outcome<T> = Ok(value: T) | Refused

  /** One INSERT: primary key, NOT NULL and foreign keys checked at its end. */
  function Insert(g: Graph, s: Store, t: string, row: Row): Outcome<Store> {
    var after := s[t := Table(s, t) + [row]];
    if (g.Key(t) != [] && HoldsKey(Table(s, t), g.Key(t), Cells(row, g.Key(t))) && Full(Cells(row, g.Key(t))))
       || !NotNullHolds(g, t, row) || !Intact(g, after) then Refused
    else Ok(after)
  }

  /** The value assigned to a column: the first one listed for it. */
  function ValueFor(cols: seq<string>, vals: seq<Cell>, c: string): (v: Cell)
    requires |cols| == |vals| && c in cols
    ensures exists i :: 0 <= i < |cols| && cols[i] == c && vals[i] == v
  {
    if cols[0] == c then vals[0]
    else
      assert cols == [cols[0]] + cols[1..];
      ValueFor(cols[1..], vals[1..], c)
  }

  /** The row with the columns set to the values. */
  function Assign(row: Row, cols: seq<string>, vals: seq<Cell>): (r: Row)
    requires |cols| == |vals|
    ensures r.Keys == row.Keys
    ensures forall c :: c !in cols ==> At(r, c) == At(row, c)
  {
    map c | c in row :: if c in cols then ValueFor(cols, vals, c) else row[c]
  }

  lemma AssignRestores(row: Row, orig: Row, cols: seq<string>)
    requires row.Keys == orig.Keys
    ensures forall c :: c in cols ==> At(Assign(row, cols, Cells(orig, cols)), c) == At(orig, c)
  {
  }

  /** The rows `UPDATE ... WHERE key = ref.key` reaches. */
  predicate Hit(g: Graph, t: string, row: Row, ref: DeferredRef) {
    Full(ref.key) && Cells(row, g.Key(t)) == ref.key
  }

  function Updated(g: Graph, t: string, rows: seq<Row>, ref: DeferredRef): (r: seq<Row>)
    requires |ref.cols| == |ref.vals|
    ensures |r| == |rows|
    ensures forall i :: 0 <= i < |rows| ==> r[i] == if Hit(g, t, rows[i], ref) then Assign(rows[i], ref.cols, ref.vals) else rows[i]
  {
    seq(|rows|, i requires 0 <= i < |rows| => if Hit(g, t, rows[i], ref) then Assign(rows[i], ref.cols, ref.vals) else rows[i])
  }

  function Hits(g: Graph, t: string, rows: seq<Row>, ref: DeferredRef): set<nat> {
    set i: nat | i < |rows| && Hit(g, t, rows[i], ref)
  }

  /** One UPDATE of applyDeferredRefs: it must reach exactly one row. */
  function Update(g: Graph, s: Store, t: string, ref: DeferredRef): Outcome<Store>
    requires |ref.cols| == |ref.vals|
  {
    var after := s[t := Updated(g, t, Table(s, t), ref)];
    if |Hits(g, t, Table(s, t), ref)| != 1
       || (exists i :: 0 <= i < |after[t]| && !NotNullHolds(g, t, after[t][i]))
       || !Intact(g, after) then Refused
    else Ok(after)
  }

  /** What an export of a sound database holds: keys present and unique, NOT NULL and foreign keys satisfied. */
  ghost predicate SoundArchive(g: Graph, a: Store) {
    && g.WellFormed() && Intact(g, a)
    && (forall t, i :: 0 <= i < |Table(a, t)| ==> Full(Cells(Table(a, t)[i], g.Key(t))) && NotNullHolds(g, t, Table(a, t)[i]))
    && (forall t :: g.Key(t) != [] ==> UniqueIn(Table(a, t), g.Key(t)))
  }

  ghost predicate UniqueIn(rows: seq<Row>, key: seq<string>) {
    forall i, j :: 0 <= i < j < |rows| ==> Cells(rows[i], key) != Cells(rows[j], key)
  }

  /** One table to restore: its self-references, and those naming a table written later. */
  datatype Source = Source(table: string, selfRefs: seq<Edge>, laterRefs: seq<Edge>)
}
