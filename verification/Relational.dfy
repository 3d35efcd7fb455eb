/**
Rows, columns and foreign keys as both data planes see them. A value is opaque:
only whether it is NULL, what it equals and how it sorts matter.
*/
module Relational {

  datatype Cell = Null | Val(v: nat)

  type Row = map<string, Cell>

  function At(r: Row, c: string): Cell {
    if c in r then r[c] else Null
  }

  function Cells(r: Row, cols: seq<string>): (cs: seq<Cell>)
    ensures |cs| == |cols|
    ensures forall i :: 0 <= i < |cols| ==> cs[i] == At(r, cols[i])
  {
    seq(|cols|, i requires 0 <= i < |cols| => At(r, cols[i]))
  }

  /** No NULL among the values: the only keys SQL's `=` can match. */
  predicate Full(cs: seq<Cell>) {
    Null !in cs
  }

  function Columns(cols: seq<string>): set<string> {
    set c | c in cols
  }

  /** The row with the given columns set to NULL. */
  function Cleared(r: Row, cols: set<string>): (r': Row)
    ensures forall c :: At(r', c) == if c in cols then Null else At(r, c)
  {
    map c | c in r.Keys :: if c in cols then Null else r[c]
  }

  /** `r` is `orig` with some cells emptied and nothing else changed. */
  ghost predicate Masks(orig: Row, r: Row) {
    forall c {:trigger At(r, c)} :: At(r, c) == At(orig, c) || At(r, c) == Null
  }

  lemma MasksKeepFullCells(orig: Row, r: Row, cols: seq<string>)
    requires Masks(orig, r) && Full(Cells(r, cols))
    ensures Cells(orig, cols) == Cells(r, cols)
  {
    forall i | 0 <= i < |cols| ensures Cells(orig, cols)[i] == Cells(r, cols)[i] {
      assert Cells(r, cols)[i] in Cells(r, cols);
      assert At(r, cols[i]) == Cells(r, cols)[i];
    }
  }

  lemma SameCells(a: Row, b: Row, cols: seq<string>)
    requires forall c :: c in cols ==> At(a, c) == At(b, c)
    ensures Cells(a, cols) == Cells(b, cols)
  {
    forall i | 0 <= i < |cols| ensures Cells(a, cols)[i] == Cells(b, cols)[i] {
      assert cols[i] in cols;
    }
  }

  /** Emptying columns loses the key exactly when one of them is in it. */
  lemma ClearedKey(row: Row, gone: set<string>, key: seq<string>)
    requires Full(Cells(row, key))
    ensures var cur := Cleared(row, gone);
            && (Cells(cur, key) == Cells(row, key) <==> gone !! Columns(key))
            && (Full(Cells(cur, key)) <==> gone !! Columns(key))
  {
    var cur := Cleared(row, gone);
    if c :| c in gone && c in Columns(key) {
      var x :| 0 <= x < |key| && key[x] == c;
      assert Cells(row, key)[x] in Cells(row, key);
      assert Cells(cur, key)[x] == Null;
    } else {
      assert gone !! Columns(key) && forall c :: c in key ==> c in Columns(key);
      SameCells(cur, row, key);
    }
  }

  /** What the schema declares for ON DELETE; Unset carries no action. */
  datatype OnDelete = Unset | Cascade | SetNull | Restrict | NoAction

  /** One foreign key: child.cols reference parent.key, column for column. */
  datatype Edge = Edge(child: string, parent: string, cols: seq<string>, key: seq<string>, action: OnDelete)
  {
    /** RESTRICT and NO ACTION: a child row refuses its parent's delete. */
    predicate Blocks() {
      action.Restrict? || action.NoAction?
    }
  }

  /** One physical table. `owner` is "" when no entity on it is owner-scoped. */
  datatype DataTable = DataTable(key: seq<string>, owner: string, pivot: bool, unmanaged: bool, notNull: set<string>)

  /** The relation graph, and which of its tables the database holds. */
  datatype Graph = Graph(tables: map<string, DataTable>, edges: seq<Edge>, present: set<string>) {

    function Key(t: string): seq<string> {
      if t in tables then tables[t].key else []
    }

    function NotNull(t: string): set<string> {
      if t in tables then tables[t].notNull else {}
    }

    predicate Pivot(t: string) {
      t in tables && tables[t].pivot
    }

    /** A table the framework migrates, so its foreign keys exist. */
    predicate Managed(t: string) {
      t in tables && !tables[t].unmanaged && t in present
    }

    /** buildDataGraph refuses a key that does not line up with the one it references. */
    ghost predicate WellFormed() {
      forall e :: e in edges ==>
        e.child in tables && e.parent in tables && e.key == tables[e.parent].key && |e.cols| == |e.key| > 0
    }

    /** The cascade follows an unset or CASCADE relation into a managed table. */
    predicate Follows(e: Edge) {
      !e.action.SetNull? && !e.Blocks() && Managed(e.child)
    }
  }
}
