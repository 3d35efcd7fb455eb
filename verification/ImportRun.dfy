/**
ImportData's write phase: the sources parents first, each table's rows in
`parentRowsFirst` order, the references a cycle keeps out of the inserts set
afterwards, all in one transaction.
*/
module ImportRun {
  import opened Relational
  import opened Ordering
  import opened TableOrder
  import opened RowOrder
  import opened ImportModel
  import opened ImportRefs

  // ---- Sources -------------------------------------------------------------

  /** The source's references, sorted by what is already written when it is. */
  ghost predicate SourceFits(g: Graph, src: Source, emitted: set<string>) {
    && (forall e :: e in src.selfRefs <==> e in g.edges && e.child == src.table && e.parent == src.table)
    && (forall e :: e in src.laterRefs <==> e in g.edges && e.child == src.table && e.parent != src.table && e.parent !in emitted)
  }

  function Emitted(sources: seq<Source>, n: nat): set<string>
    requires n <= |sources|
  {
    set i | 0 <= i < n :: sources[i].table
  }

  lemma EmittedPrefix(a: seq<Source>, b: seq<Source>, n: nat)
    requires n <= |a| && n <= |b| && forall i :: 0 <= i < n ==> a[i] == b[i]
    ensures Emitted(a, n) == Emitted(b, n)
  {
    forall t ensures t in Emitted(a, n) <==> t in Emitted(b, n) {
      if t in Emitted(a, n) {
        var i :| 0 <= i < n && a[i].table == t;
        assert b[i].table == t;
      }
    }
  }

  lemma EmittedNext(sources: seq<Source>, n: nat)
    requires n < |sources|
    ensures Emitted(sources, n + 1) == Emitted(sources, n) + {sources[n].table}
  {
    forall t ensures t in Emitted(sources, n + 1) <==> t in Emitted(sources, n) || t == sources[n].table {
    }
  }

  ghost predicate SourcesFit(g: Graph, sources: seq<Source>) {
    && (forall i, j :: 0 <= i < j < |sources| ==> sources[i].table != sources[j].table)
    && (forall t :: t in g.tables <==> t in Emitted(sources, |sources|))
    && (forall i :: 0 <= i < |sources| ==> SourceFits(g, sources[i], Emitted(sources, i)))
  }

  /** A reference to a later table lies on a cycle of tables. */
  ghost predicate LaterOnlyOnCycles(g: Graph, sources: seq<Source>) {
    forall i, e :: 0 <= i < |sources| && e in sources[i].laterRefs ==> WaitsOn(g.tables.Keys, g.edges, true, e.parent, e.child)
  }

  /** The edges of one source, told apart by what is emitted. */
  method Classify(g: Graph, t: string, emitted: set<string>) returns (src: Source)
    requires g.WellFormed()
    ensures src.table == t && SourceFits(g, src, emitted)
  {
    var selfRefs, laterRefs := [], [];
    for k := 0 to |g.edges|
      invariant forall e :: e in selfRefs <==> e in g.edges[..k] && e.child == t && e.parent == t
      invariant forall e :: e in laterRefs <==> e in g.edges[..k] && e.child == t && e.parent != t && e.parent !in emitted
    {
      var e := g.edges[k];
      assert g.edges[..k + 1] == g.edges[..k] + [e];
      if e.child != t {
      } else if e.parent == t {
        selfRefs := selfRefs + [e];
      } else if e.parent in g.tables && e.parent !in emitted {
        laterRefs := laterRefs + [e];
      }
    }
    assert g.edges[..|g.edges|] == g.edges;
    src := Source(t, selfRefs, laterRefs);
  }

  method CollectSources(g: Graph) returns (sources: seq<Source>)
    requires g.WellFormed()
    ensures SourcesFit(g, sources) && LaterOnlyOnCycles(g, sources)
  {
    var sorted := SortedKeys(g.tables.Keys);
    assert Distinct(sorted) by {
      forall i, j | 0 <= i < j < |sorted| ensures sorted[i] != sorted[j] {
        assert Less(sorted[i], sorted[j]);
      }
    }
    var ordered := OrderTables(sorted, g.edges, true);
    assert Columns(sorted) == g.tables.Keys;
    sources := [];
    for n := 0 to |ordered|
      invariant |sources| == n && forall i :: 0 <= i < n ==> sources[i].table == ordered[i]
      invariant forall i :: 0 <= i < n ==> SourceFits(g, sources[i], Emitted(sources, i))
    {
      var src := Classify(g, ordered[n], Emitted(sources, n));
      ghost var more := sources + [src];
      forall i | 0 <= i < n + 1 ensures SourceFits(g, more[i], Emitted(more, i)) {
        EmittedPrefix(more, sources, i);
      }
      sources := sources + [src];
    }
    forall t ensures t in g.tables <==> t in Emitted(sources, |sources|) {
      if t in g.tables {
        assert t in ordered;
        var i :| 0 <= i < |ordered| && ordered[i] == t;
        assert sources[i].table == t;
      }
    }
    forall i, e | 0 <= i < |sources| && e in sources[i].laterRefs
      ensures WaitsOn(g.tables.Keys, g.edges, true, e.parent, e.child)
    {
      assert e.parent !in Emitted(sources, i);
      assert Orders(e, true, e.parent, e.child);
      assert Before(g.tables.Keys, g.edges, true, e.parent, e.child);
      assert forall x :: 0 <= x < i ==> sources[x].table in Emitted(sources, i);
      NotAfter(ordered, i, e.parent);
    }
  }

  lemma NotAfter(ordered: seq<string>, i: nat, parent: string)
    requires Distinct(ordered) && i < |ordered| && forall x :: 0 <= x < i ==> ordered[x] != parent
    ensures !Precedes(ordered, parent, ordered[i])
  {
  }

  // ---- holdLaterRefs -------------------------------------------------------

  predicate IsSet(row: Row, e: Edge) {
    exists c :: c in e.cols && At(row, c) != Null
  }

  function HeldColumns(row: Row, refs: seq<Edge>): set<string> {
    set e, c | e in refs && IsSet(row, e) && c in e.cols :: c
  }

  /** Each row without its references to later tables, and those references. */
  ghost predicate HeldBack(rows: seq<Row>, key: seq<string>, refs: seq<Edge>, out: seq<Row>, deferred: seq<DeferredRef>) {
    && |out| == |rows|
    && (forall i :: 0 <= i < |rows| ==> out[i] == Cleared(rows[i], HeldColumns(rows[i], refs)))
    && (forall i, e :: 0 <= i < |rows| && e in refs && IsSet(rows[i], e) ==> RefOf(rows[i], key, e) in deferred)
    && (forall d :: d in deferred ==> exists i, e :: 0 <= i < |rows| && e in refs && IsSet(rows[i], e) && d == RefOf(rows[i], key, e))
  }

  /** No row can be written with these references empty. */
  ghost predicate CannotHold(rows: seq<Row>, key: seq<string>, refs: seq<Edge>) {
    || key == []
    || (exists e, c :: e in refs && c in e.cols && c in key)
    || (exists i, e :: 0 <= i < |rows| && e in refs && IsSet(rows[i], e) && !Full(Cells(rows[i], key)))
  }

  /** One row's references to later tables. */
  method HoldRow(row: Row, key: seq<string>, refs: seq<Edge>) returns (ok: bool, out: Row, deferred: seq<DeferredRef>)
    ensures ok <==> (forall e :: e in refs && IsSet(row, e) ==> Full(Cells(row, key)))
    ensures ok ==> out == Cleared(row, HeldColumns(row, refs))
    ensures ok ==> forall e :: e in refs && IsSet(row, e) ==> RefOf(row, key, e) in deferred
    ensures ok ==> forall d :: d in deferred ==> exists e :: e in refs && IsSet(row, e) && d == RefOf(row, key, e)
  {
    out, deferred := row, [];
    assert Cleared(row, {}) == row;
    assert HeldColumns(row, refs[..0]) == {};
    for k := 0 to |refs|
      invariant out == Cleared(row, HeldColumns(row, refs[..k]))
      invariant forall e :: e in refs[..k] && IsSet(row, e) ==> RefOf(row, key, e) in deferred && Full(Cells(row, key))
      invariant forall d :: d in deferred ==> exists e :: e in refs && IsSet(row, e) && d == RefOf(row, key, e)
    {
      var e := refs[k];
      assert refs[..k + 1] == refs[..k] + [e];
      if IsSet(row, e) {
        if !Full(Cells(row, key)) {
          return false, out, deferred;
        }
        ghost var was := HeldColumns(row, refs[..k]);
        assert HeldColumns(row, refs[..k + 1]) == was + Columns(e.cols);
        out := Cleared(out, Columns(e.cols));
        deferred := deferred + [RefOf(row, key, e)];
      } else {
        assert HeldColumns(row, refs[..k + 1]) == HeldColumns(row, refs[..k]);
      }
    }
    assert refs[..|refs|] == refs;
    ok := true;
  }

  method HoldLaterRefs(rows: seq<Row>, key: seq<string>, refs: seq<Edge>) returns (ok: bool, out: seq<Row>, deferred: seq<DeferredRef>)
    ensures ok <==> !CannotHold(rows, key, refs)
    ensures ok ==> HeldBack(rows, key, refs, out, deferred)
  {
    out, deferred := [], [];
    if key == [] {
      return false, out, deferred;
    }
    if e, c :| e in refs && c in e.cols && c in key {
      return false, out, deferred;
    }
    for i := 0 to |rows|
      invariant HeldBack(rows[..i], key, refs, out, deferred)
      invariant forall j, e :: 0 <= j < i && e in refs && IsSet(rows[j], e) ==> Full(Cells(rows[j], key))
    {
      var done, row, more := HoldRow(rows[i], key, refs);
      if !done {
        return false, out, deferred;
      }
      HeldOneMore(rows, key, refs, out, deferred, i, row, more);
      out, deferred := out + [row], deferred + more;
    }
    assert rows[..|rows|] == rows;
    ok := true;
  }

  lemma HeldOneMore(rows: seq<Row>, key: seq<string>, refs: seq<Edge>, out: seq<Row>, deferred: seq<DeferredRef>, n: nat, row: Row, more: seq<DeferredRef>)
    requires n < |rows| && HeldBack(rows[..n], key, refs, out, deferred)
    requires row == Cleared(rows[n], HeldColumns(rows[n], refs))
    requires forall e :: e in refs && IsSet(rows[n], e) ==> RefOf(rows[n], key, e) in more
    requires forall d :: d in more ==> exists e :: e in refs && IsSet(rows[n], e) && d == RefOf(rows[n], key, e)
    ensures HeldBack(rows[..n + 1], key, refs, out + [row], deferred + more)
  {
    var rows' := rows[..n + 1];
    assert forall i :: 0 <= i < n ==> rows'[i] == rows[..n][i];
    forall d | d in deferred + more ensures exists i, e :: 0 <= i < |rows'| && e in refs && IsSet(rows'[i], e) && d == RefOf(rows'[i], key, e) {
      if d in deferred {
        var i, e :| 0 <= i < n && e in refs && IsSet(rows[..n][i], e) && d == RefOf(rows[..n][i], key, e);
        assert d == RefOf(rows'[i], key, e);
      } else {
        var e :| e in refs && IsSet(rows[n], e) && d == RefOf(rows[n], key, e);
        assert d == RefOf(rows'[n], key, e);
      }
    }
  }

  // ---- One table -----------------------------------------------------------

  /**
  One source made ready to be written: its rows reordered and without the
  references that close cycles of rows (`first`), then without those to later
  tables (`rows`).
  */
  datatype Batch = Batch(order: seq<nat>, log: seq<Deferral>, first: seq<Row>, selfRefs: seq<DeferredRef>, rows: seq<Row>, later: seq<DeferredRef>)

  ghost predicate Arranged(g: Graph, a: Store, src: Source, b: Batch) {
    Restorable(Table(a, src.table), g.Key(src.table), src.selfRefs, b.order, b.log, b.first, b.selfRefs)
  }

  ghost predicate CannotBeHeld(g: Graph, src: Source, b: Batch) {
    src.laterRefs != [] && CannotHold(b.first, g.Key(src.table), src.laterRefs)
  }

  ghost predicate Prepared(g: Graph, a: Store, src: Source, b: Batch) {
    Arranged(g, a, src, b) && (CannotBeHeld(g, src, b) || HeldBack(b.first, g.Key(src.table), src.laterRefs, b.rows, b.later))
  }

  /** Prepared, with the references to later tables held. */
  ghost predicate Held(g: Graph, a: Store, src: Source, b: Batch) {
    Arranged(g, a, src, b) && HeldBack(b.first, g.Key(src.table), src.laterRefs, b.rows, b.later) && !CannotBeHeld(g, src, b)
  }

  /** The archived rows in the order they are written. */
  ghost function Own(a: Store, src: Source, b: Batch): seq<Row>
    requires Permutes(b.order, |Table(a, src.table)|)
  {
    Reordered(Table(a, src.table), b.order)
  }

  /** The columns of the row at `k` that its deferred self-references emptied. */
  ghost function GoneAt(b: Batch, k: nat): set<string>
    requires k < |b.order|
  {
    Gone(b.log, b.order[k])
  }

  /** The columns of the row at `k` that its references to later tables emptied. */
  ghost function HeldAt(src: Source, b: Batch, k: nat): set<string>
    requires k < |b.first|
  {
    HeldColumns(b.first[k], src.laterRefs)
  }

  /** The row as it is once its self-references are back. */
  ghost function Midway(orig: Row, gone: set<string>, held: set<string>): Row {
    Cleared(orig, held - gone)
  }

  /**
  The row as the import leaves it: a column it lost to a deferred self-reference
  and to a reference held for a later table alike stays empty, because the later
  reference was read when the self-reference had emptied it.
  */
  ghost function Restored(orig: Row, gone: set<string>, held: set<string>): Row {
    Cleared(orig, held * gone)
  }

  ghost function Mids(a: Store, src: Source, b: Batch): (r: seq<Row>)
    requires Permutes(b.order, |Table(a, src.table)|) && |b.first| == |b.order|
    ensures |r| == |b.order|
  {
    seq(|b.order|, k requires 0 <= k < |b.order| => Midway(Own(a, src, b)[k], GoneAt(b, k), HeldAt(src, b, k)))
  }

  ghost function Lasts(a: Store, src: Source, b: Batch): (r: seq<Row>)
    requires Permutes(b.order, |Table(a, src.table)|) && |b.first| == |b.order|
    ensures |r| == |b.order|
  {
    seq(|b.order|, k requires 0 <= k < |b.order| => Restored(Own(a, src, b)[k], GoneAt(b, k), HeldAt(src, b, k)))
  }

  /** Every row's key and NOT NULL columns came through whole. */
  ghost predicate Whole(g: Graph, t: string, rows: seq<Row>) {
    forall k :: 0 <= k < |rows| ==> Full(Cells(rows[k], g.Key(t))) && NotNullHolds(g, t, rows[k])
  }

  /** Some row's deferred self-references between them hold every column of a reference to a later table. */
  ghost predicate Early(src: Source, b: Batch) {
    exists k, e :: 0 <= k < |b.order| && e in src.laterRefs && Columns(e.cols) <= GoneAt(b, k)
  }

  /** What decides whether a source can be written. */
  ghost predicate Accepted(g: Graph, src: Source, b: Batch) {
    !CannotBeHeld(g, src, b) && Whole(g, src.table, b.rows) && !Early(src, b)
  }

  /** No row loses a column both to a deferred self-reference and to one held for a later table. */
  ghost predicate Apart(src: Source, b: Batch) {
    |b.order| == |b.first| && forall k :: 0 <= k < |b.order| ==> GoneAt(b, k) !! HeldAt(src, b, k)
  }

  /** What the preparation did to the row at `k`. */
  lemma RowAt(g: Graph, a: Store, src: Source, b: Batch, k: nat)
    requires Held(g, a, src, b) && k < |b.order|
    ensures |b.rows| == |b.first| == |b.order| == |Own(a, src, b)|
    ensures b.first[k] == Cleared(Own(a, src, b)[k], GoneAt(b, k))
    ensures b.rows[k] == Cleared(Own(a, src, b)[k], GoneAt(b, k) + HeldAt(src, b, k))
    ensures Masks(Own(a, src, b)[k], b.rows[k]) && b.rows[k].Keys == Own(a, src, b)[k].Keys
  {
    assert b.first[k] == Emptied(Table(a, src.table), b.log, b.order[k]);
    SameRow(b.rows[k], Cleared(Own(a, src, b)[k], GoneAt(b, k) + HeldAt(src, b, k)));
  }

  lemma ArchivedWhole(g: Graph, a: Store, src: Source, b: Batch, k: nat)
    requires SoundArchive(g, a) && k < |b.order| && Permutes(b.order, |Table(a, src.table)|)
    ensures var orig := Own(a, src, b)[k];
            Full(Cells(orig, g.Key(src.table))) && NotNullHolds(g, src.table, orig)
  {
    hide Cells, UniqueIn, Intact;
    assert Own(a, src, b)[k] == Table(a, src.table)[b.order[k]];
  }

  /** A deferral of the row at `k`, as the update it leads to. */
  lemma DeferralAt(g: Graph, a: Store, src: Source, b: Batch, p: nat) returns (k: nat)
    requires SoundArchive(g, a) && Arranged(g, a, src, b) && p < |b.log|
    ensures |b.selfRefs| == |b.log| && k < |b.order| && b.order[k] == b.log[p].row
    ensures b.log[p].edge in src.selfRefs && b.selfRefs[p].cols == b.log[p].edge.cols && Columns(b.selfRefs[p].cols) <= GoneAt(b, k)
    ensures b.selfRefs[p].vals == Cells(Own(a, src, b)[k], b.selfRefs[p].cols) && Full(b.selfRefs[p].vals)
    ensures Full(b.selfRefs[p].key) || GoneAt(b, k) !! Columns(g.Key(src.table)) ==> b.selfRefs[p].key == Cells(Own(a, src, b)[k], g.Key(src.table))
  {
    var rows, key := Table(a, src.table), g.Key(src.table);
    assert LoggedAt(rows, key, src.selfRefs, b.selfRefs[p], b.log, p);
    assert b.log[p].row in b.order;
    k :| 0 <= k < |b.order| && b.order[k] == b.log[p].row;
    assert Own(a, src, b)[k] == rows[b.order[k]];
    ArchivedWhole(g, a, src, b, k);
    DeferredAsArchived(rows, key, src.selfRefs, b.selfRefs, b.log, p);
    assert forall q :: 0 <= q < |b.log| && b.log[q].row == b.order[k] ==> Columns(b.log[q].edge.cols) <= GoneAt(b, k) by {
      forall q, c | 0 <= q < |b.log| && b.log[q].row == b.order[k] && c in Columns(b.log[q].edge.cols) ensures c in GoneAt(b, k) {
      }
    }
  }

  lemma GoneHasDeferral(b: Batch, k: nat, c: string) returns (p: nat)
    requires k < |b.order| && c in GoneAt(b, k)
    ensures p < |b.log| && b.log[p].row == b.order[k] && c in b.log[p].edge.cols
  {
    p :| 0 <= p < |b.log| && b.log[p].row == b.order[k] && c in b.log[p].edge.cols;
  }

  lemma SamePlace(order: seq<nat>, n: nat, j: nat, k: nat)
    requires Permutes(order, n) && j < |order| && k < |order| && order[j] == order[k]
    ensures j == k
  {
  }

  /** A column a self-reference was deferred over had a value. */
  lemma GoneWasSet(g: Graph, a: Store, src: Source, b: Batch, k: nat, c: string)
    requires SoundArchive(g, a) && Arranged(g, a, src, b) && k < |b.order| && c in GoneAt(b, k)
    ensures At(Own(a, src, b)[k], c) != Null && b.selfRefs != []
    ensures exists e :: e in src.selfRefs && c in e.cols
  {
    var p := GoneHasDeferral(b, k, c);
    var j := DeferralAt(g, a, src, b, p);
    SamePlace(b.order, |Table(a, src.table)|, j, k);
    var cols := b.selfRefs[p].cols;
    var i :| 0 <= i < |cols| && cols[i] == c;
    assert Cells(Own(a, src, b)[k], cols)[i] in b.selfRefs[p].vals;
    assert b.log[p].edge in src.selfRefs;
  }

  // ---- Rows whole enough to be set right later ------------------------------

  lemma ClearedIsLast(g: Graph, t: string, orig: Row, cols: set<string>)
    requires NotNullHolds(g, t, orig) && cols !! Columns(g.Key(t)) && cols !! g.NotNull(t)
    ensures LastRow(g, t, orig, Cleared(orig, cols))
  {
    assert forall c :: c in g.Key(t) ==> c in Columns(g.Key(t));
    SameCells(Cleared(orig, cols), orig, g.Key(t));
  }

  /** A row written whole lost no key column and no NOT NULL one. */
  lemma WholeIsSpared(g: Graph, a: Store, src: Source, b: Batch, k: nat)
    requires SoundArchive(g, a) && Held(g, a, src, b) && Whole(g, src.table, b.rows) && k < |b.order|
    ensures |b.first| == |b.order|
    ensures var lost := GoneAt(b, k) + HeldAt(src, b, k); lost !! Columns(g.Key(src.table)) && lost !! g.NotNull(src.table)
  {
    var key, orig, lost := g.Key(src.table), Own(a, src, b)[k], GoneAt(b, k) + HeldAt(src, b, k);
    RowAt(g, a, src, b, k);
    ArchivedWhole(g, a, src, b, k);
    ClearedKey(orig, lost, key);
    assert NotNullHolds(g, src.table, b.rows[k]) && Full(Cells(b.rows[k], key));
    assert forall c :: c in lost ==> At(b.rows[k], c) == Null;
  }

  /** The self-references owed to a whole row bring it from what was written to what it is midway. */
  lemma RowMidway(g: Graph, a: Store, src: Source, b: Batch, k: nat)
    requires SoundArchive(g, a) && Held(g, a, src, b) && Whole(g, src.table, b.rows) && k < |b.order|
    ensures |b.rows| == |b.first| == |b.order|
    ensures LastRow(g, src.table, Own(a, src, b)[k], Mids(a, src, b)[k])
    ensures KeptRow(g, src.table, Own(a, src, b)[k], Mids(a, src, b)[k], b.rows[k], b.selfRefs)
  {
    var t, key, orig, mid := src.table, g.Key(src.table), Own(a, src, b)[k], Mids(a, src, b)[k];
    WholeIsSpared(g, a, src, b, k);
    ArchivedWhole(g, a, src, b, k);
    RowAt(g, a, src, b, k);
    var gone, held := GoneAt(b, k), HeldAt(src, b, k);
    ClearedIsLast(g, t, orig, held - gone);
    ClearedIsLast(g, t, orig, gone + held);
    forall c ensures At(b.rows[k], c) == At(mid, c) || Owed(mid, key, b.selfRefs, c) {
      if c in gone {
        var p := GoneHasDeferral(b, k, c);
        var j := DeferralAt(g, a, src, b, p);
        SamePlace(b.order, |Table(a, t)|, j, k);
        GoneIsBack(orig, gone, held, b.selfRefs[p].cols);
        assert TakenFrom(mid, key, b.selfRefs[p]) && b.selfRefs[p] in b.selfRefs;
      }
    }
  }

  lemma GoneIsBack(orig: Row, gone: set<string>, held: set<string>, cols: seq<string>)
    requires Columns(cols) <= gone
    ensures Cells(Midway(orig, gone, held), cols) == Cells(orig, cols)
  {
    forall c | c in cols ensures At(Midway(orig, gone, held), c) == At(orig, c) {
      assert c in Columns(cols);
    }
    SameCells(Midway(orig, gone, held), orig, cols);
  }

  /** The references held for later tables bring it from there to its last state. */
  lemma RowLast(g: Graph, a: Store, src: Source, b: Batch, k: nat)
    requires SoundArchive(g, a) && Held(g, a, src, b) && Whole(g, src.table, b.rows) && k < |b.order|
    ensures |b.rows| == |b.first| == |b.order|
    ensures LastRow(g, src.table, Own(a, src, b)[k], Lasts(a, src, b)[k])
    ensures KeptRow(g, src.table, Own(a, src, b)[k], Lasts(a, src, b)[k], Mids(a, src, b)[k], b.later)
    ensures forall e :: e in src.laterRefs && IsSet(b.first[k], e) ==> TakenFrom(Lasts(a, src, b)[k], g.Key(src.table), RefOf(b.first[k], g.Key(src.table), e))
  {
    var t, key, orig, mid, last := src.table, g.Key(src.table), Own(a, src, b)[k], Mids(a, src, b)[k], Lasts(a, src, b)[k];
    WholeIsSpared(g, a, src, b, k);
    ArchivedWhole(g, a, src, b, k);
    RowAt(g, a, src, b, k);
    RowMidway(g, a, src, b, k);
    var gone, held := GoneAt(b, k), HeldAt(src, b, k);
    ClearedIsLast(g, t, orig, held * gone);
    ClearedIsLast(g, t, orig, gone);
    forall e | e in src.laterRefs && IsSet(b.first[k], e) ensures TakenFrom(last, key, RefOf(b.first[k], key, e)) {
      SetIsHeld(b.first[k], src.laterRefs, e);
      HeldIsAsRead(orig, gone, held, e.cols);
    }
    forall c ensures At(mid, c) == At(last, c) || Owed(last, key, b.later, c) {
      if c in held {
        var e :| e in src.laterRefs && IsSet(b.first[k], e) && c in e.cols;
        assert RefOf(b.first[k], key, e) in b.later;
      }
    }
  }

  lemma SetIsHeld(row: Row, refs: seq<Edge>, e: Edge)
    requires e in refs && IsSet(row, e)
    ensures Columns(e.cols) <= HeldColumns(row, refs)
  {
  }

  lemma HeldIsAsRead(orig: Row, gone: set<string>, held: set<string>, cols: seq<string>)
    requires Columns(cols) <= held
    ensures Cells(Cleared(orig, gone), cols) == Cells(Restored(orig, gone, held), cols)
  {
    forall c | c in cols ensures At(Cleared(orig, gone), c) == At(Restored(orig, gone, held), c) {
      assert c in Columns(cols);
    }
    SameCells(Cleared(orig, gone), Restored(orig, gone, held), cols);
  }

  /** The table as it is being written. */
  lemma PreparedIsIn(g: Graph, a: Store, src: Source, b: Batch)
    requires SoundArchive(g, a) && Held(g, a, src, b) && Whole(g, src.table, b.rows)
    ensures |b.rows| == |b.first| == |b.order|
    ensures TableIn(g, a, src.table, Own(a, src, b), Mids(a, src, b), b.rows, b.selfRefs)
  {
    var t, own, mids := src.table, Own(a, src, b), Mids(a, src, b);
    PermutationKeepsRows(Table(a, t), b.order);
    forall d | d in b.selfRefs ensures |d.cols| == |d.vals| && exists k :: 0 <= k < |mids| && TakenFrom(mids[k], g.Key(t), d) {
      var p :| 0 <= p < |b.selfRefs| && b.selfRefs[p] == d;
      var k := DeferralAt(g, a, src, b, p);
      WholeIsSpared(g, a, src, b, k);
      RowMidway(g, a, src, b, k);
      GoneIsBack(own[k], GoneAt(b, k), HeldAt(src, b, k), d.cols);
      assert TakenFrom(mids[k], g.Key(t), d);
    }
    hide *;
    forall k | 0 <= k < |own| ensures LastRow(g, t, own[k], mids[k]) && |b.rows| == |own| && KeptRow(g, t, own[k], mids[k], b.rows[k], b.selfRefs) {
      RowMidway(g, a, src, b, k);
    }
    Lengths(g, a, src, b);
    TableInIs(g, a, t, own, mids, b.rows, b.selfRefs);
  }

  lemma Lengths(g: Graph, a: Store, src: Source, b: Batch)
    requires Held(g, a, src, b)
    ensures |b.rows| == |b.first| == |b.order| == |Own(a, src, b)| == |Table(a, src.table)|
  {
  }

  lemma TableInIs(g: Graph, a: Store, t: string, base: seq<Row>, last: seq<Row>, cur: seq<Row>, pend: seq<DeferredRef>)
    requires multiset(base) == multiset(Table(a, t)) && |base| == |last| == |cur|
    requires forall k :: 0 <= k < |base| ==> LastRow(g, t, base[k], last[k]) && KeptRow(g, t, base[k], last[k], cur[k], pend)
    requires forall d :: d in pend ==> |d.cols| == |d.vals| && exists k :: 0 <= k < |last| && TakenFrom(last[k], g.Key(t), d)
    ensures TableIn(g, a, t, base, last, cur, pend)
  {
  }

  /** The table once its self-references are back and those to later tables are still to come. */
  lemma MidwayIsIn(g: Graph, a: Store, src: Source, b: Batch)
    requires SoundArchive(g, a) && Held(g, a, src, b) && Whole(g, src.table, b.rows)
    ensures |b.rows| == |b.first| == |b.order|
    ensures TableIn(g, a, src.table, Own(a, src, b), Lasts(a, src, b), Mids(a, src, b), b.later)
  {
    var t, own, lasts, mids := src.table, Own(a, src, b), Lasts(a, src, b), Mids(a, src, b);
    PermutationKeepsRows(Table(a, t), b.order);
    forall d | d in b.later ensures |d.cols| == |d.vals| && exists k :: 0 <= k < |lasts| && TakenFrom(lasts[k], g.Key(t), d) {
      var k, e :| 0 <= k < |b.first| && e in src.laterRefs && IsSet(b.first[k], e) && d == RefOf(b.first[k], g.Key(t), e);
      RowLast(g, a, src, b, k);
      assert TakenFrom(lasts[k], g.Key(t), d);
    }
    hide *;
    forall k | 0 <= k < |own| ensures LastRow(g, t, own[k], lasts[k]) && KeptRow(g, t, own[k], lasts[k], mids[k], b.later) {
      RowLast(g, a, src, b, k);
    }
    Lengths(g, a, src, b);
    TableInIs(g, a, t, own, lasts, mids, b.later);
  }

  // ---- The inserts ---------------------------------------------------------

  /** They find every reference left in the rows already satisfied. */
  lemma PreparedIsPlaced(g: Graph, a: Store, src: Source, b: Batch, ready: set<string>, k: nat)
    requires SoundArchive(g, a) && SourceFits(g, src, ready) && Held(g, a, src, b) && k < |b.rows|
    ensures |Own(a, src, b)| == |b.rows| && Placed(g, src.table, Own(a, src, b), b.rows, ready, k)
  {
    var t, own := src.table, Own(a, src, b);
    forall e | e in g.edges && e.child == t && Full(Cells(b.rows[k], e.cols))
      ensures e.parent in ready || (e.parent == t && exists m :: 0 <= m <= k && Cells(own[m], e.key) == Cells(b.rows[k], e.cols))
    {
      if e.parent == t {
        SelfTargetIsEarlier(g, a, src, b, e, k);
      } else if e.parent !in ready {
        LaterIsEmpty(b.first, g.Key(t), src.laterRefs, b.rows, b.later, e, k);
      }
    }
  }

  lemma LaterColumnIsEmpty(first: seq<Row>, key: seq<string>, refs: seq<Edge>, rows: seq<Row>, later: seq<DeferredRef>, e: Edge, k: nat, c: string)
    requires HeldBack(first, key, refs, rows, later) && e in refs && c in e.cols && k < |rows|
    ensures At(rows[k], c) == Null
  {
    if IsSet(first[k], e) {
      assert c in HeldColumns(first[k], refs);
    }
  }

  lemma LaterIsEmpty(first: seq<Row>, key: seq<string>, refs: seq<Edge>, rows: seq<Row>, later: seq<DeferredRef>, e: Edge, k: nat)
    requires HeldBack(first, key, refs, rows, later) && e in refs && e.cols != [] && k < |rows|
    ensures !Full(Cells(rows[k], e.cols))
  {
    LaterColumnIsEmpty(first, key, refs, rows, later, e, k, e.cols[0]);
    assert Cells(rows[k], e.cols)[0] == Null;
  }

  lemma SelfTargetIsEarlier(g: Graph, a: Store, src: Source, b: Batch, e: Edge, k: nat)
    requires SoundArchive(g, a) && Held(g, a, src, b) && k < |b.rows|
    requires e in src.selfRefs && e in g.edges && e.child == src.table && e.parent == src.table && Full(Cells(b.rows[k], e.cols))
    ensures |Own(a, src, b)| == |b.rows|
    ensures exists m :: 0 <= m <= k && Cells(Own(a, src, b)[m], e.key) == Cells(b.rows[k], e.cols)
  {
    var t, own := src.table, Own(a, src, b);
    Lengths(g, a, src, b);
    RowAt(g, a, src, b, k);
    MasksKeepFullCells(b.first[k], b.rows[k], e.cols);
    assert NamesEarlier(Table(a, t), g.Key(t), b.order, k, Cells(b.first[k], e.cols));
    PermutationKeepsRows(Table(a, t), b.order);
    ReferenceArchived(g, a, e, own, b.rows[k], k);
    var m :| 0 <= m <= k && m < |b.order| && Cells(Table(a, t)[b.order[m]], g.Key(t)) == Cells(b.first[k], e.cols);
    assert own[m] == Table(a, t)[b.order[m]];
  }

  lemma WritingStarts(g: Graph, a: Store, l: Load, s: Store, ready: set<string>, src: Source, b: Batch)
    requires SoundArchive(g, a) && Loaded(g, a, l, s, ready) && src.table !in ready
    requires SourceFits(g, src, ready) && Held(g, a, src, b) && Whole(g, src.table, b.rows)
    ensures |b.rows| == |b.first| == |b.order|
    ensures Writing(g, a, l, s, ready, src.table, Own(a, src, b), Mids(a, src, b), b.rows, b.selfRefs)
  {
    Lengths(g, a, src, b);
    var own, mids := Own(a, src, b), Mids(a, src, b);
    hide *;
    PreparedIsIn(g, a, src, b);
    forall k | 0 <= k < |b.rows| ensures |own| == |b.rows| && Placed(g, src.table, own, b.rows, ready, k) {
      PreparedIsPlaced(g, a, src, b, ready, k);
    }
    WritingIs(g, a, l, s, ready, src.table, own, mids, b.rows, b.selfRefs);
  }

  lemma WritingIs(g: Graph, a: Store, l: Load, s: Store, ready: set<string>,
                  t: string, own: seq<Row>, last: seq<Row>, rows: seq<Row>, owed: seq<DeferredRef>)
    requires SoundArchive(g, a) && Loaded(g, a, l, s, ready) && t !in ready && TableIn(g, a, t, own, last, rows, owed)
    requires forall k :: 0 <= k < |rows| ==> |own| == |rows| && Placed(g, t, own, rows, ready, k)
    ensures Writing(g, a, l, s, ready, t, own, last, rows, owed)
  {
    assert |own| == |rows|;
  }

  // ---- A key that did not come through -------------------------------------

  /** `ref` was deferred of this row: its values, and its key unless that had been emptied already. */
  ghost predicate DeferredOf(row: Row, key: seq<string>, ref: DeferredRef) {
    (Full(ref.key) ==> ref.key == Cells(row, key)) && ref.vals == Cells(row, ref.cols)
  }

  /** The table as written, its rows only ever given back what they had, with one row short of its key. */
  ghost predicate Stale(g: Graph, t: string, own: seq<Row>, cur: seq<Row>, bad: nat) {
    && |cur| == |own| && bad < |own| && !Full(Cells(cur[bad], g.Key(t)))
    && forall k :: 0 <= k < |own| ==> Masks(own[k], cur[k]) && cur[k].Keys == own[k].Keys
  }

  ghost predicate DistinctKeys(g: Graph, t: string, own: seq<Row>) {
    forall i, j :: 0 <= i < |own| && 0 <= j < |own| && Cells(own[i], g.Key(t)) == Cells(own[j], g.Key(t)) ==> i == j
  }

  lemma HitIsOwner(g: Graph, t: string, own: seq<Row>, cur: seq<Row>, bad: nat, d: DeferredRef, i: nat, k: nat)
    requires Stale(g, t, own, cur, bad) && DistinctKeys(g, t, own) && i < |own| && DeferredOf(own[i], g.Key(t), d)
    requires k < |cur| && Hit(g, t, cur[k], d)
    ensures k == i && k != bad
  {
    MasksKeepFullCells(own[k], cur[k], g.Key(t));
  }

  /** No update ever reaches the row, so it never gets its key back. */
  lemma StaysStale(g: Graph, t: string, own: seq<Row>, cur: seq<Row>, bad: nat, d: DeferredRef, i: nat)
    requires Stale(g, t, own, cur, bad) && DistinctKeys(g, t, own)
    requires i < |own| && DeferredOf(own[i], g.Key(t), d) && |d.cols| == |d.vals|
    ensures Stale(g, t, own, Updated(g, t, cur, d), bad)
    ensures i == bad ==> Hits(g, t, cur, d) == {}
  {
    forall k | 0 <= k < |cur| ensures Masks(own[k], Updated(g, t, cur, d)[k]) {
      if Hit(g, t, cur[k], d) {
        HitIsOwner(g, t, own, cur, bad, d, i, k);
        AssignRestores(cur[k], own[k], d.cols);
      }
    }
    forall k: nat | k < |cur| && i == bad ensures !Hit(g, t, cur[k], d) {
      if Hit(g, t, cur[k], d) {
        HitIsOwner(g, t, own, cur, bad, d, i, k);
      }
    }
  }

  lemma OwnKeysDistinct(g: Graph, a: Store, src: Source, b: Batch)
    requires SoundArchive(g, a) && g.Key(src.table) != [] && Permutes(b.order, |Table(a, src.table)|)
    ensures DistinctKeys(g, src.table, Own(a, src, b))
  {
    var t, own := src.table, Own(a, src, b);
    PermutationKeepsRows(Table(a, t), b.order);
    forall i, j | 0 <= i < |own| && 0 <= j < |own| && i != j ensures Cells(own[i], g.Key(t)) != Cells(own[j], g.Key(t)) {
      KeysDiffer(g, a, t, own, j);
    }
  }

  lemma SelfRefOwner(g: Graph, a: Store, src: Source, b: Batch, d: DeferredRef)
    requires SoundArchive(g, a) && Arranged(g, a, src, b) && d in b.selfRefs
    ensures |d.cols| == |d.vals|
    ensures exists k :: 0 <= k < |Own(a, src, b)| && DeferredOf(Own(a, src, b)[k], g.Key(src.table), d)
    ensures exists e :: e in src.selfRefs && e.cols == d.cols
  {
    var p :| 0 <= p < |b.selfRefs| && b.selfRefs[p] == d;
    var k := DeferralAt(g, a, src, b, p);
    assert DeferredOf(Own(a, src, b)[k], g.Key(src.table), d);
  }

  /** A row short of its key was written so because of a deferred self-reference, which is still to be set. */
  lemma BadRowIsOwed(g: Graph, a: Store, src: Source, b: Batch, bad: nat)
    requires SoundArchive(g, a) && Held(g, a, src, b) && bad < |b.rows| && !Full(Cells(b.rows[bad], g.Key(src.table)))
    ensures Stale(g, src.table, Own(a, src, b), b.rows, bad) && g.Key(src.table) != []
    ensures exists d :: d in b.selfRefs && DeferredOf(Own(a, src, b)[bad], g.Key(src.table), d)
  {
    var t, key, own := src.table, g.Key(src.table), Own(a, src, b);
    Lengths(g, a, src, b);
    ArchivedWhole(g, a, src, b, bad);
    forall k | 0 <= k < |b.rows| ensures Masks(own[k], b.rows[k]) && b.rows[k].Keys == own[k].Keys {
      RowAt(g, a, src, b, k);
    }
    RowAt(g, a, src, b, bad);
    ClearedKey(own[bad], GoneAt(b, bad) + HeldAt(src, b, bad), key);
    var c :| c in GoneAt(b, bad) + HeldAt(src, b, bad) && c in Columns(key);
    assert c !in HeldAt(src, b, bad);
    var p := GoneHasDeferral(b, bad, c);
    var k := DeferralAt(g, a, src, b, p);
    SamePlace(b.order, |Table(a, t)|, k, bad);
    assert DeferredOf(own[bad], key, b.selfRefs[p]) && b.selfRefs[p] in b.selfRefs;
  }

  // ---- Setting the deferred references -------------------------------------

  ghost predicate Shaped(refs: seq<DeferredRef>) {
    forall d :: d in refs ==> |d.cols| == |d.vals|
  }

  /** applyDeferredRefs: the updates in turn, stopping at the first refused. */
  function ApplyAll(g: Graph, s: Store, t: string, refs: seq<DeferredRef>): Outcome<Store>
    requires Shaped(refs)
  {
    if refs == [] then Ok(s)
    else
      assert refs[0] in refs;
      var next := Update(g, s, t, refs[0]);
      if next.Refused? then Refused else ApplyAll(g, next.value, t, refs[1..])
  }

  /** References that complete none to a table still missing all go back in. */
  lemma {:induction false} AllApplied(g: Graph, a: Store, l: Load, s: Store, ready: set<string>, t: string)
    requires SoundArchive(g, a) && Loaded(g, a, l, s, ready) && t in ready && l.Has(t)
    requires Shaped(l.pend[t]) && (l.pend[t] != [] ==> g.Key(t) != [])
    requires Barred(g, t, l.base[t], Table(s, t), l.pend[t], ready)
    ensures ApplyAll(g, s, t, l.pend[t]).Ok?
    ensures Loaded(g, a, l.(pend := l.pend[t := []]), ApplyAll(g, s, t, l.pend[t]).value, ready)
    decreases |l.pend[t]|
  {
    hide Loaded, SoundArchive, Barred, Update, Table;
    if l.pend[t] == [] {
      assert l.pend[t := []] == l.pend;
    } else {
      var refs := l.pend[t];
      UpdateSucceeds(g, a, l, s, ready, t);
      var l', s' := l.(pend := l.pend[t := refs[1..]]), s[t := Updated(g, t, Table(s, t), refs[0])];
      assert forall x :: x in refs[1..] ==> x in refs;
      assert Table(s', t) == Updated(g, t, Table(s, t), refs[0]) by { TablePut(s, t, Updated(g, t, Table(s, t), refs[0])); }
      AllApplied(g, a, l', s', ready, t);
      assert l'.pend[t := []] == l.pend[t := []];
    }
  }

  lemma TablePut(s: Store, t: string, rows: seq<Row>)
    ensures Table(s[t := rows], t) == rows
  {
  }

  /** Where the updates all go through, the table holds what its rows were to come to, and every foreign key holds. */
  lemma {:induction false} AppliedRows(g: Graph, a: Store, s: Store, t: string, base: seq<Row>, last: seq<Row>, refs: seq<DeferredRef>)
    requires SoundArchive(g, a) && TableIn(g, a, t, base, last, Table(s, t), refs) && Shaped(refs) && (refs != [] ==> g.Key(t) != [])
    requires ApplyAll(g, s, t, refs).Ok?
    ensures var done := ApplyAll(g, s, t, refs).value;
            Table(done, t) == last && (forall u :: u != t ==> Table(done, u) == Table(s, u)) && (refs != [] ==> Intact(g, done))
    decreases |refs|
  {
    hide SoundArchive, TableIn, Intact, NotNullHolds, Hits;
    if refs == [] {
      NothingOwed(g, a, t, base, last, Table(s, t));
    } else {
      TableRestored(g, a, t, base, last, Table(s, t), refs);
      var next := Update(g, s, t, refs[0]).value;
      assert forall x :: x in refs[1..] ==> x in refs;
      AppliedRows(g, a, next, t, base, last, refs[1..]);
    }
  }

  lemma {:induction false} StaleIsRefused(g: Graph, s: Store, t: string, own: seq<Row>, bad: nat, refs: seq<DeferredRef>)
    requires Shaped(refs) && Stale(g, t, own, Table(s, t), bad) && DistinctKeys(g, t, own)
    requires forall d :: d in refs ==> exists i :: 0 <= i < |own| && DeferredOf(own[i], g.Key(t), d)
    requires exists d :: d in refs && DeferredOf(own[bad], g.Key(t), d)
    ensures ApplyAll(g, s, t, refs).Refused?
    decreases |refs|
  {
    var d := refs[0];
    assert d in refs;
    if DeferredOf(own[bad], g.Key(t), d) {
      StaysStale(g, t, own, Table(s, t), bad, d, bad);
    } else if Update(g, s, t, d).Ok? {
      var i :| 0 <= i < |own| && DeferredOf(own[i], g.Key(t), d);
      StaysStale(g, t, own, Table(s, t), bad, d, i);
      var x :| x in refs && DeferredOf(own[bad], g.Key(t), x);
      assert x in refs[1..] && forall y :: y in refs[1..] ==> y in refs;
      StaleIsRefused(g, Update(g, s, t, d).value, t, own, bad, refs[1..]);
    }
  }

  /** A written row short of its key is found out when its reference is to be set. */
  lemma NotWholeIsRefused(g: Graph, a: Store, src: Source, b: Batch, s: Store)
    requires SoundArchive(g, a) && Held(g, a, src, b) && !Whole(g, src.table, b.rows)
    requires forall k :: 0 <= k < |b.rows| ==> NotNullHolds(g, src.table, b.rows[k])
    requires Shaped(b.selfRefs) && Table(s, src.table) == b.rows
    ensures ApplyAll(g, s, src.table, b.selfRefs).Refused?
  {
    var bad :| 0 <= bad < |b.rows| && !Full(Cells(b.rows[bad], g.Key(src.table)));
    BadRowIsOwed(g, a, src, b, bad);
    OwnKeysDistinct(g, a, src, b);
    forall d | d in b.selfRefs
      ensures exists i :: 0 <= i < |Own(a, src, b)| && DeferredOf(Own(a, src, b)[i], g.Key(src.table), d)
    {
      SelfRefOwner(g, a, src, b, d);
    }
    hide *;
    StaleIsRefused(g, s, src.table, Own(a, src, b), bad, b.selfRefs);
  }

  /** The self-references of a source that is not early complete no reference to a later table. */
  lemma SelfRefsAreBarred(g: Graph, a: Store, src: Source, b: Batch, ready: set<string>)
    requires SoundArchive(g, a) && SourceFits(g, src, ready) && Held(g, a, src, b) && !Early(src, b)
    ensures |b.order| == |Own(a, src, b)| && Barred(g, src.table, Own(a, src, b), b.rows, b.selfRefs, ready + {src.table})
  {
    var t, own := src.table, Own(a, src, b);
    Lengths(g, a, src, b);
    forall e, k | e in g.edges && e.child == t && e.parent !in ready + {t} && 0 <= k < |b.rows|
      ensures BarredRow(g, t, own[k], b.rows[k], b.selfRefs, e)
    {
      assert e in src.laterRefs && !(Columns(e.cols) <= GoneAt(b, k));
      var c :| c in Columns(e.cols) && c !in GoneAt(b, k);
      LaterColumnIsEmpty(b.first, g.Key(t), src.laterRefs, b.rows, b.later, e, k, c);
      NotGoneIsNotSet(g, a, src, b, k, c);
      assert c in e.cols;
    }
  }

  lemma NotGoneIsNotSet(g: Graph, a: Store, src: Source, b: Batch, k: nat, c: string)
    requires SoundArchive(g, a) && Arranged(g, a, src, b) && g.Key(src.table) != [] && k < |b.order| && c !in GoneAt(b, k)
    ensures NotSet(g, src.table, Own(a, src, b)[k], b.selfRefs, c)
  {
    OwnKeysDistinct(g, a, src, b);
    ArchivedWhole(g, a, src, b, k);
    forall d | d in b.selfRefs && d.key == Cells(Own(a, src, b)[k], g.Key(src.table)) ensures c !in d.cols {
      var p :| 0 <= p < |b.selfRefs| && b.selfRefs[p] == d;
      var j := DeferralAt(g, a, src, b, p);
      assert j == k;
      assert c !in Columns(d.cols);
    }
  }

  /** With every row whole and none early, the self-references all go back in. */
  lemma SelfRefsApply(g: Graph, a: Store, l: Load, s: Store, ready: set<string>, src: Source, b: Batch)
    requires SoundArchive(g, a) && Loaded(g, a, l, s, ready) && src.table !in ready && Shaped(b.selfRefs)
    requires SourceFits(g, src, ready) && Held(g, a, src, b) && Accepted(g, src, b)
    ensures |b.first| == |b.order|
    ensures var t := src.table;
            var done := ApplyAll(g, s[t := b.rows], t, b.selfRefs);
            done.Ok? && Loaded(g, a, l.With(t, Own(a, src, b), Lasts(a, src, b), b.later), done.value, ready + {t})
  {
    Lengths(g, a, src, b);
    var t, own, mids, lasts := src.table, Own(a, src, b), Mids(a, src, b), Lasts(a, src, b);
    var l1, s1, here := l.With(t, own, mids, b.selfRefs), s[t := b.rows], ready + {t};
    hide *;
    AcceptedMeans(g, src, b);
    WritingStarts(g, a, l, s, ready, src, b);
    TableJoins(g, a, l, s, ready, t, own, mids, b.rows, b.selfRefs);
    SelfRefsAreBarred(g, a, src, b, ready);
    KeyedSource(g, a, src, b, ready);
    TablePut(s, t, b.rows);
    WithHas(l, t, own, mids, b.selfRefs);
    AllApplied(g, a, l1, s1, here, t);
    var l2, s2 := l1.(pend := l1.pend[t := []]), ApplyAll(g, s1, t, b.selfRefs).value;
    TableOf(g, a, l2, s2, here, t);
    NothingOwed(g, a, t, own, mids, Table(s2, t));
    MidwayIsIn(g, a, src, b);
    LoadedAgain(g, a, l2, s2, here, t, lasts, mids, b.later);
    SameTables(s2, t, mids);
    SameTablesLoaded(g, a, Load(l2.base, l2.last[t := lasts], l2.pend[t := b.later]), s2[t := mids], s2, here);
    assert Load(l2.base, l2.last[t := lasts], l2.pend[t := b.later]) == l.With(t, own, lasts, b.later) by {
      WithTwice(l, t, own, mids, lasts, b.selfRefs, b.later);
    }
  }

  lemma AcceptedMeans(g: Graph, src: Source, b: Batch)
    requires Accepted(g, src, b)
    ensures Whole(g, src.table, b.rows) && !Early(src, b) && !CannotBeHeld(g, src, b)
  {
  }

  lemma KeyedSource(g: Graph, a: Store, src: Source, b: Batch, ready: set<string>)
    requires SoundArchive(g, a) && SourceFits(g, src, ready) && Held(g, a, src, b)
    ensures b.selfRefs != [] || b.later != [] ==> g.Key(src.table) != []
    ensures Shaped(b.selfRefs) && Shaped(b.later)
  {
    forall d | d in b.selfRefs ensures |d.cols| == |d.vals| && g.Key(src.table) != [] {
      SelfRefOwner(g, a, src, b, d);
      var e :| e in src.selfRefs && e.cols == d.cols;
    }
    assert b.selfRefs != [] ==> b.selfRefs[0] in b.selfRefs;
    assert b.later != [] ==> b.later[0] in b.later;
  }

  lemma WithHas(l: Load, t: string, own: seq<Row>, rows: seq<Row>, owed: seq<DeferredRef>)
    ensures var l' := l.With(t, own, rows, owed); l'.Has(t) && l'.base[t] == own && l'.last[t] == rows && l'.pend[t] == owed
  {
  }

  lemma WithTwice(l: Load, t: string, own: seq<Row>, mids: seq<Row>, lasts: seq<Row>, refs: seq<DeferredRef>, later: seq<DeferredRef>)
    ensures var l1 := l.With(t, own, mids, refs);
            Load(l1.base, l1.last[t := lasts], l1.pend[t := []][t := later]) == l.With(t, own, lasts, later)
  {
  }

  lemma SameTables(s: Store, t: string, rows: seq<Row>)
    requires Table(s, t) == rows
    ensures forall u :: Table(s[t := rows], u) == Table(s, u)
  {
  }

  lemma SameTablesLoaded(g: Graph, a: Store, l: Load, s: Store, s': Store, ready: set<string>)
    requires Loaded(g, a, l, s, ready) && forall u :: Table(s, u) == Table(s', u)
    ensures Loaded(g, a, l, s', ready)
  {
    hide TableIn, RefsReady;
    forall t | t in ready ensures LoadedTable(g, a, l, s', ready, t) {
      assert LoadedTable(g, a, l, s, ready, t);
    }
  }

  /** Where a row is early its reference is completed while the table it names is empty, and an update is refused. */
  lemma EarlyIsRefused(g: Graph, a: Store, src: Source, b: Batch, ready: set<string>, s: Store)
    requires SoundArchive(g, a) && SourceFits(g, src, ready) && Held(g, a, src, b) && Whole(g, src.table, b.rows) && Early(src, b)
    requires Shaped(b.selfRefs) && Table(s, src.table) == b.rows
    requires forall u :: u !in ready && u != src.table ==> Table(s, u) == []
    ensures ApplyAll(g, s, src.table, b.selfRefs).Refused?
  {
    var t := src.table;
    var k, e :| 0 <= k < |b.order| && e in src.laterRefs && Columns(e.cols) <= GoneAt(b, k);
    EarlyIsFull(g, a, src, b, ready, k, e);
    KeyedSource(g, a, src, b, ready);
    PreparedIsIn(g, a, src, b);
    var mids := Mids(a, src, b);
    hide SourceFits, SoundArchive, Held, Whole, Early, TableIn, Full, Midway, ApplyAll;
    if ApplyAll(g, s, t, b.selfRefs).Ok? {
      AppliedRows(g, a, s, t, Own(a, src, b), mids, b.selfRefs);
      var done := ApplyAll(g, s, t, b.selfRefs).value;
      Unnamed(g, done, e, k);
    }
  }

  lemma Unnamed(g: Graph, s: Store, e: Edge, k: nat)
    requires Intact(g, s) && e in g.edges && k < |Table(s, e.child)| && Table(s, e.parent) == []
    ensures !Full(Cells(Table(s, e.child)[k], e.cols))
  {
    assert Satisfied(s, e, Table(s, e.child)[k]);
  }

  lemma EarlyIsFull(g: Graph, a: Store, src: Source, b: Batch, ready: set<string>, k: nat, e: Edge)
    requires SoundArchive(g, a) && SourceFits(g, src, ready) && Held(g, a, src, b)
    requires k < |b.order| && e in src.laterRefs && Columns(e.cols) <= GoneAt(b, k)
    ensures |b.first| == |b.order| && Full(Cells(Mids(a, src, b)[k], e.cols)) && b.selfRefs != []
    ensures e in g.edges && e.child == src.table && e.parent != src.table && e.parent !in ready
  {
    Lengths(g, a, src, b);
    var row := Mids(a, src, b)[k];
    forall i | 0 <= i < |e.cols| ensures Cells(row, e.cols)[i] != Null {
      assert e.cols[i] in Columns(e.cols);
      GoneWasSet(g, a, src, b, k, e.cols[i]);
    }
    assert e in g.edges && e.cols[0] in Columns(e.cols);
    GoneWasSet(g, a, src, b, k, e.cols[0]);
  }

  // ---- What the import leaves ----------------------------------------------

  /** The rows come back as archived exactly where no deferred self-reference meets a reference held for a later table. */
  lemma RestoredExactlyWhenApart(g: Graph, a: Store, src: Source, b: Batch, ready: set<string>)
    requires SoundArchive(g, a) && SourceFits(g, src, ready) && Held(g, a, src, b) && Whole(g, src.table, b.rows)
    ensures |b.first| == |b.order|
    ensures multiset(Lasts(a, src, b)) == multiset(Table(a, src.table)) <==> Apart(src, b)
  {
    Lengths(g, a, src, b);
    var t, own, lasts := src.table, Own(a, src, b), Lasts(a, src, b);
    PermutationKeepsRows(Table(a, t), b.order);
    forall k | 0 <= k < |own| ensures LastRow(g, t, own[k], lasts[k]) && (lasts[k] == own[k] <==> GoneAt(b, k) !! HeldAt(src, b, k)) {
      RowLast(g, a, src, b, k);
      ApartIsSame(g, a, src, b, k);
    }
    KeyedSource(g, a, src, b, ready);
    hide SoundArchive, SourceFits, Held, Whole, LastRow, GoneAt, HeldAt, Restored;
    if g.Key(t) != [] {
      SameRowsExactlyWhenEach(g, a, t, own, lasts);
      assert lasts == own <==> forall k :: 0 <= k < |own| ==> lasts[k] == own[k];
    } else {
      forall k | 0 <= k < |own| ensures GoneAt(b, k) !! HeldAt(src, b, k) {
        NothingGone(g, a, src, b, k);
      }
      assert lasts == own;
    }
  }

  lemma ApartIsSame(g: Graph, a: Store, src: Source, b: Batch, k: nat)
    requires SoundArchive(g, a) && Held(g, a, src, b) && k < |b.order|
    ensures |b.first| == |b.order| && |Own(a, src, b)| == |b.order|
    ensures Lasts(a, src, b)[k] == Own(a, src, b)[k] <==> GoneAt(b, k) !! HeldAt(src, b, k)
  {
    Lengths(g, a, src, b);
    var orig, last := Own(a, src, b)[k], Lasts(a, src, b)[k];
    if c :| c in GoneAt(b, k) && c in HeldAt(src, b, k) {
      GoneWasSet(g, a, src, b, k, c);
      assert At(last, c) == Null;
    } else {
      SameRow(last, orig);
    }
  }

  lemma NothingGone(g: Graph, a: Store, src: Source, b: Batch, k: nat)
    requires SoundArchive(g, a) && Arranged(g, a, src, b) && k < |b.order| && b.selfRefs == []
    ensures GoneAt(b, k) == {}
  {
    if c :| c in GoneAt(b, k) {
      var p := GoneHasDeferral(b, k, c);
    }
  }

  /** The schema's own sign of trouble: references a source may have to empty that hold a key or NOT NULL column, or no key to set them by. */
  ghost predicate Troubled(g: Graph, src: Source) {
    || (src.laterRefs != [] && g.Key(src.table) == [])
    || exists e, c :: (e in src.selfRefs || e in src.laterRefs) && c in e.cols && (c in g.Key(src.table) || c in g.NotNull(src.table))
  }

  /** A self-reference shares a column with a reference to a later table. */
  ghost predicate Shares(src: Source) {
    exists d, e, c :: d in src.selfRefs && e in src.laterRefs && c in d.cols && c in e.cols
  }

  /** Only a schema with such references can be refused. */
  lemma RefusalHasCause(g: Graph, a: Store, src: Source, b: Batch, ready: set<string>)
    requires SoundArchive(g, a) && SourceFits(g, src, ready) && Prepared(g, a, src, b) && !Accepted(g, src, b)
    ensures Troubled(g, src) || Shares(src)
  {
    hide Arranged, HeldBack, GoneAt, Troubled, CannotHold;
    if CannotBeHeld(g, src, b) {
      HoldTrouble(g, a, src, b);
    } else if Early(src, b) {
      var k, e :| 0 <= k < |b.order| && e in src.laterRefs && Columns(e.cols) <= GoneAt(b, k);
      assert e in g.edges && e.cols != [] && e.cols[0] in Columns(e.cols);
      GoneWasSet(g, a, src, b, k, e.cols[0]);
      var d :| d in src.selfRefs && e.cols[0] in d.cols;
      assert e.cols[0] in e.cols;
    } else {
      hide SoundArchive;
      Lengths(g, a, src, b);
      var k :| 0 <= k < |b.rows| && !(Full(Cells(b.rows[k], g.Key(src.table))) && NotNullHolds(g, src.table, b.rows[k]));
      LossIsTrouble(g, a, src, b, k);
    }
  }

  /** A key or NOT NULL column missing from a written row is one the preparation emptied. */
  lemma LostColumn(g: Graph, t: string, orig: Row, lost: set<string>) returns (c: string)
    requires Full(Cells(orig, g.Key(t))) && NotNullHolds(g, t, orig)
    requires !(Full(Cells(Cleared(orig, lost), g.Key(t))) && NotNullHolds(g, t, Cleared(orig, lost)))
    ensures c in lost && (c in g.Key(t) || c in g.NotNull(t))
  {
    if Full(Cells(Cleared(orig, lost), g.Key(t))) {
      c :| c in g.NotNull(t) && At(Cleared(orig, lost), c) == Null;
    } else {
      ClearedKey(orig, lost, g.Key(t));
      c :| c in lost && c in Columns(g.Key(t));
    }
  }

  lemma LossIsTrouble(g: Graph, a: Store, src: Source, b: Batch, k: nat)
    requires SoundArchive(g, a) && Held(g, a, src, b) && k < |b.order|
    requires |b.rows| == |b.order|
    requires !(Full(Cells(b.rows[k], g.Key(src.table))) && NotNullHolds(g, src.table, b.rows[k]))
    ensures Troubled(g, src)
  {
    hide SoundArchive, Troubled, Full, NotNullHolds, HeldBack, GoneAt;
    Lengths(g, a, src, b);
    RowAt(g, a, src, b, k);
    ArchivedWhole(g, a, src, b, k);
    var c := LostColumn(g, src.table, Own(a, src, b)[k], GoneAt(b, k) + HeldAt(src, b, k));
    if c in GoneAt(b, k) {
      GoneWasSet(g, a, src, b, k, c);
      var e :| e in src.selfRefs && c in e.cols;
      TroubleWith(g, src, e, c);
    } else {
      var e :| e in src.laterRefs && c in e.cols;
      TroubleWith(g, src, e, c);
    }
  }

  lemma TroubleWith(g: Graph, src: Source, e: Edge, c: string)
    requires (e in src.selfRefs || e in src.laterRefs) && c in e.cols && (c in g.Key(src.table) || c in g.NotNull(src.table))
    ensures Troubled(g, src)
  {
  }

  lemma HoldTrouble(g: Graph, a: Store, src: Source, b: Batch)
    requires SoundArchive(g, a) && CannotBeHeld(g, src, b) && Arranged(g, a, src, b)
    ensures Troubled(g, src)
  {
    hide SoundArchive, Arranged, GoneAt, IsSet, Full;
    var key := g.Key(src.table);
    if key == [] {
    } else if e, c :| e in src.laterRefs && c in e.cols && c in key {
      TroubleWith(g, src, e, c);
    } else {
      var k, e :| 0 <= k < |b.first| && e in src.laterRefs && IsSet(b.first[k], e) && !Full(Cells(b.first[k], key));
      hide Troubled;
      KeyWasGone(g, a, src, b, k);
      var c :| c in GoneAt(b, k) && c in key;
      GoneWasSet(g, a, src, b, k, c);
      var x :| x in src.selfRefs && c in x.cols;
      TroubleWith(g, src, x, c);
    }
  }

  lemma KeyWasGone(g: Graph, a: Store, src: Source, b: Batch, k: nat)
    requires SoundArchive(g, a) && Arranged(g, a, src, b) && k < |b.first| && !Full(Cells(b.first[k], g.Key(src.table)))
    ensures k < |b.order| && exists c :: c in GoneAt(b, k) && c in g.Key(src.table)
  {
    ArchivedWhole(g, a, src, b, k);
    assert b.first[k] == Emptied(Table(a, src.table), b.log, b.order[k]);
    ClearedKey(Own(a, src, b)[k], GoneAt(b, k), g.Key(src.table));
    var c :| c in GoneAt(b, k) && c in Columns(g.Key(src.table));
  }

  // ---- The transaction -----------------------------------------------------

  class Restore {
    const g: Graph
    var store: Store
    // What has been written so far, table by table, and what each table is still owed.
    ghost var load: Load

    constructor (g: Graph, store: Store)
      ensures this.g == g && this.store == store && load == Load(map[], map[], map[])
    {
      this.g, this.store, load := g, store, Load(map[], map[], map[]);
    }

    ghost predicate In(a: Store, ready: set<string>)
      reads this
    {
      SoundArchive(g, a) && Loaded(g, a, load, store, ready)
    }

    /** rawWriteAll: one INSERT per row. It stops only at a row short of its key or a NOT NULL column. */
    method WriteAll(a: Store, src: Source, rows: seq<Row>, ghost b: Batch, ghost ready: set<string>) returns (ok: bool)
      requires In(a, ready) && src.table !in ready && b.rows == rows && |b.first| == |b.order| && Permutes(b.order, |Table(a, src.table)|)
      requires Whole(g, src.table, rows) ==> Writing(g, a, load, store, ready, src.table, Own(a, src, b), Mids(a, src, b), rows, b.selfRefs)
      modifies this`store
      ensures ok ==> store == old(store)[src.table := rows] && forall k :: 0 <= k < |rows| ==> NotNullHolds(g, src.table, rows[k])
      ensures !ok ==> !Whole(g, src.table, rows)
    {
      var t := src.table;
      ghost var own, mids := Own(a, src, b), Mids(a, src, b);
      hide *;
      NotYetWritten(a, ready, t);
      store := store[t := []];
      NothingInserted(old(store), store, t, rows);
      for n := 0 to |rows|
        invariant store == old(store)[t := rows[..n]] && Table(store, t) == rows[..n]
        invariant forall k :: 0 <= k < n ==> NotNullHolds(g, t, rows[k])
      {
        InsertMeans(g, store, t, rows[n]);
        InsertOneMore(old(store), t, rows, n);
        var next := ImportModel.Insert(g, store, t, rows[n]);
        if next.Refused? {
          if Whole(g, t, rows) {
            InsertSucceeds(g, a, load, old(store), ready, t, own, mids, rows, b.selfRefs, n);
          }
          return false;
        }
        store := next.value;
      }
      assert rows[..|rows|] == rows;
      ok := true;
    }

    lemma NotYetWritten(a: Store, ready: set<string>, t: string)
      requires In(a, ready) && t !in ready
      ensures Table(store, t) == []
    {
    }

    method ApplyDeferredRefs(t: string, refs: seq<DeferredRef>) returns (ok: bool)
      requires Shaped(refs)
      modifies this`store
      ensures ok ==> ApplyAll(g, old(store), t, refs) == Ok(store)
      ensures !ok ==> ApplyAll(g, old(store), t, refs).Refused?
    {
      assert refs[0..] == refs;
      for n := 0 to |refs|
        invariant ApplyAll(g, old(store), t, refs) == ApplyAll(g, store, t, refs[n..])
      {
        assert refs[n..][0] == refs[n] && refs[n..][1..] == refs[n + 1..];
        var next := Update(g, store, t, refs[n]);
        if next.Refused? {
          return false;
        }
        store := next.value;
      }
      ok := true;
    }

    /** The rows of one source as they will be inserted, and the references kept out of them. */
    method Prepare(a: Store, src: Source, ghost ready: set<string>)
      returns (ok: bool, rows: seq<Row>, selfRefs: seq<DeferredRef>, later: seq<DeferredRef>, ghost b: Batch)
      requires SoundArchive(g, a) && SourceFits(g, src, ready)
      ensures Prepared(g, a, src, b) && (ok <==> !CannotBeHeld(g, src, b))
      ensures rows == b.rows && selfRefs == b.selfRefs && later == b.later
      ensures exists c :: Prepared(g, a, src, c) && (ok <==> !CannotBeHeld(g, src, c)) && c.rows == rows && c.selfRefs == selfRefs && c.later == later
    {
      var t := src.table;
      ghost var order, log := seq(|Table(a, t)|, i => i), [];
      rows, selfRefs, later := Table(a, t), [], [];
      IdentityOrder(rows, g.Key(t));
      if |src.selfRefs| > 0 {
        rows, selfRefs, order, log := ParentRowsFirst(rows, g.Key(t), src.selfRefs);
      } else {
        assert src.selfRefs == [];
      }
      ghost var first := rows;
      if |src.laterRefs| > 0 {
        ok, rows, later := HoldLaterRefs(rows, g.Key(t), src.laterRefs);
      } else {
        assert src.laterRefs == [];
        NothingHeld(first, g.Key(t));
        ok := true;
      }
      b := Batch(order, log, first, selfRefs, rows, later);
    }

    /**
    One source: its inserts, then the self-references that closed cycles of rows.
    It goes through exactly when its references to later tables can be held,
    every row is written with its key and NOT NULL columns whole, and no row's
    self-references complete a reference to a table not yet written.
    */
    method ImportTable(a: Store, src: Source, ghost ready: set<string>) returns (ok: bool, later: seq<DeferredRef>, ghost b: Batch)
      requires In(a, ready) && src.table !in ready && SourceFits(g, src, ready)
      modifies this
      ensures Prepared(g, a, src, b) && (ok <==> Accepted(g, src, b)) && later == b.later
      ensures ok ==> Held(g, a, src, b) && |b.first| == |b.order|
      ensures ok ==> load == old(load).With(src.table, Own(a, src, b), Lasts(a, src, b), later)
      ensures ok ==> In(a, ready + {src.table}) && Shaped(later) && (later != [] ==> g.Key(src.table) != [])
    {
      var t := src.table;
      var rows, selfRefs;
      ok, rows, selfRefs, later, b := Prepare(a, src, ready);
      if !ok {
        return;
      }
      Lengths(g, a, src, b);
      KeyedSource(g, a, src, b, ready);
      NothingElseIn(a, ready);
      hide *;
      if Whole(g, t, rows) {
        WritingStarts(g, a, load, store, ready, src, b);
      }
      ok := WriteAll(a, src, rows, b, ready);
      if !ok {
        NotAccepted(g, src, b);
        return;
      }
      ghost var written := store;
      WrittenTables(old(store), written, t, rows);
      ok := ApplyDeferredRefs(t, selfRefs);
      Verdict(g, src, b);
      if !Whole(g, t, rows) {
        NotWholeIsRefused(g, a, src, b, written);
      } else if Early(src, b) {
        EarlyIsRefused(g, a, src, b, ready, written);
      } else {
        SelfRefsApply(g, a, old(load), old(store), ready, src, b);
        load := load.With(t, Own(a, src, b), Lasts(a, src, b), later);
        LoadedIsIn(g, a, load, store, ready + {t});
      }
    }

    lemma NothingElseIn(a: Store, ready: set<string>)
      requires In(a, ready)
      ensures SoundArchive(g, a) && Loaded(g, a, load, store, ready) && forall u :: u !in ready ==> Table(store, u) == []
    {
    }

    /** Every source in turn, keeping what each is still owed; it stops at the first refused. */
    method WriteSources(a: Store, sources: seq<Source>) returns (ok: bool, held: seq<(string, seq<DeferredRef>)>, ghost batches: seq<Batch>)
      requires In(a, {}) && SourcesFit(g, sources)
      modifies this
      ensures AllPrepared(g, a, sources, batches) && (ok <==> AllAccepted(g, sources, batches))
      ensures ok ==> |batches| == |sources| && Batched(g, a, sources, batches, load) && In(a, Emitted(sources, |sources|))
      ensures ok ==> HeldRefs(sources, |sources|, held, load.pend, 0) && |held| == |sources|
      ensures ok ==> forall i :: 0 <= i < |held| ==> held[i].1 != [] ==> g.Key(held[i].0) != []
    {
      held, batches := [], [];
      hide *;
      NothingWritten(g, a, sources, load);
      for n := 0 to |sources|
        invariant In(a, Emitted(sources, n)) && HeldRefs(sources, n, held, load.pend, 0) && |held| == n
        invariant |batches| == n && Batched(g, a, sources, batches, load)
        invariant AllPrepared(g, a, sources, batches) && AllAccepted(g, sources, batches)
        invariant forall i :: 0 <= i < n ==> held[i].1 != [] ==> g.Key(held[i].0) != []
      {
        SourceAt(g, sources, n);
        ghost var before := load;
        var done, later, b := ImportTable(a, sources[n], Emitted(sources, n));
        PreparedOneMore(g, a, sources, batches, b);
        if !done {
          return false, held, batches + [b];
        }
        EmittedNext(sources, n);
        BatchedOneMore(g, a, sources, batches, b, before, load);
        HeldOneSource(sources, n, held, before.pend, later);
        held, batches := held + [(sources[n].table, later)], batches + [b];
      }
      ok := true;
    }

    /** The references held for a cycle of tables, once every source is written: they always go back in. */
    method ApplyHeld(a: Store, sources: seq<Source>, held: seq<(string, seq<DeferredRef>)>)
      requires In(a, Emitted(sources, |sources|)) && HeldRefs(sources, |sources|, held, load.pend, 0) && |held| == |sources|
      requires forall i :: 0 <= i < |held| ==> held[i].1 != [] ==> g.Key(held[i].0) != []
      requires forall t :: t in g.tables ==> t in Emitted(sources, |sources|)
      requires g.WellFormed() && forall i, j :: 0 <= i < j < |sources| ==> sources[i].table != sources[j].table
      modifies this
      ensures In(a, Emitted(sources, |sources|)) && HeldRefs(sources, |sources|, held, load.pend, |sources|)
      ensures load.base == old(load).base && load.last == old(load).last
    {
      hide *;
      for n := 0 to |held|
        invariant In(a, Emitted(sources, |sources|)) && HeldRefs(sources, |sources|, held, load.pend, n)
        invariant load.base == old(load).base && load.last == old(load).last
      {
        var t, refs := held[n].0, held[n].1;
        HeldRefAt(g, sources, held, load.pend, n);
        Unpack(a, Emitted(sources, |sources|));
        HeldApplies(g, a, load, store, Emitted(sources, |sources|), t, refs);
        HeldOneLess(sources, held, load.pend, n);
        var done := ApplyDeferredRefs(t, refs);
        load := load.(pend := load.pend[t := []]);
        LoadedIsIn(g, a, load, store, Emitted(sources, |sources|));
      }
    }

    lemma Unpack(a: Store, ready: set<string>)
      requires In(a, ready)
      ensures SoundArchive(g, a) && Loaded(g, a, load, store, ready)
    {
    }

    lemma LoadedIsIn(g: Graph, a: Store, l: Load, store: Store, ready: set<string>)
      requires g == this.g && l == this.load && store == this.store
      requires SoundArchive(g, a) && Loaded(g, a, l, store, ready)
      ensures In(a, ready)
    {
    }
  }

  lemma NotAccepted(g: Graph, src: Source, b: Batch)
    requires !Whole(g, src.table, b.rows)
    ensures !Accepted(g, src, b)
  {
  }

  lemma Verdict(g: Graph, src: Source, b: Batch)
    requires !CannotBeHeld(g, src, b)
    ensures Accepted(g, src, b) <==> Whole(g, src.table, b.rows) && !Early(src, b)
  {
  }

  lemma WrittenTables(s: Store, s': Store, t: string, rows: seq<Row>)
    requires s' == s[t := rows]
    ensures Table(s', t) == rows && forall u :: u != t ==> Table(s', u) == Table(s, u)
  {
  }

  lemma InsertMeans(g: Graph, s: Store, t: string, row: Row)
    ensures ImportModel.Insert(g, s, t, row).Ok? ==>
              NotNullHolds(g, t, row) && ImportModel.Insert(g, s, t, row).value == s[t := Table(s, t) + [row]]
  {
  }

  lemma InsertOneMore(s: Store, t: string, rows: seq<Row>, n: nat)
    requires n < |rows|
    ensures s[t := rows[..n]][t := rows[..n] + [rows[n]]] == s[t := rows[..n + 1]]
    ensures Table(s[t := rows[..n + 1]], t) == rows[..n + 1]
  {
    assert rows[..n] + [rows[n]] == rows[..n + 1];
  }

  lemma NothingInserted(s: Store, s': Store, t: string, rows: seq<Row>)
    requires s' == s[t := []]
    ensures s' == s[t := rows[..0]] && Table(s', t) == rows[..0]
  {
    assert rows[..0] == [];
  }

  lemma IdentityOrder(rows: seq<Row>, key: seq<string>)
    ensures Restorable(rows, key, [], seq(|rows|, i => i), [], rows, [])
  {
    var order := seq(|rows|, i => i);
    assert forall i :: 0 <= i < |rows| ==> order[i] == i;
    forall i | 0 <= i < |rows| ensures i in order && rows[i] == Emptied(rows, [], i) {
      assert order[i] == i;
      SameRow(rows[i], Emptied(rows, [], i));
    }
  }

  lemma NothingHeld(rows: seq<Row>, key: seq<string>)
    ensures HeldBack(rows, key, [], rows, [])
  {
    forall i | 0 <= i < |rows| ensures rows[i] == Cleared(rows[i], HeldColumns(rows[i], [])) {
      assert HeldColumns(rows[i], []) == {};
    }
  }

  // ---- The whole write phase -----------------------------------------------

  /** Each source written so far and what is still owed to its table, in source order. */
  ghost predicate HeldRefs(sources: seq<Source>, n: nat, held: seq<(string, seq<DeferredRef>)>, pend: map<string, seq<DeferredRef>>, from: nat)
    requires n <= |sources|
  {
    && |held| == n && from <= n
    && (forall i :: 0 <= i < n ==> held[i].0 == sources[i].table && Shaped(held[i].1) && held[i].0 in pend)
    && (forall i :: from <= i < n ==> pend[held[i].0] == held[i].1)
    && (forall i :: 0 <= i < from ==> pend[held[i].0] == [])
  }

  /** The sources reached, in order, each made ready. */
  ghost predicate AllPrepared(g: Graph, a: Store, sources: seq<Source>, batches: seq<Batch>) {
    |batches| <= |sources| && forall i :: 0 <= i < |batches| ==> Prepared(g, a, sources[i], batches[i])
  }

  ghost predicate AllAccepted(g: Graph, sources: seq<Source>, batches: seq<Batch>)
    requires |batches| <= |sources|
  {
    forall i :: 0 <= i < |batches| ==> Accepted(g, sources[i], batches[i])
  }

  /** What the batches were loaded as. */
  ghost predicate Batched(g: Graph, a: Store, sources: seq<Source>, batches: seq<Batch>, l: Load) {
    |batches| <= |sources| && forall i :: 0 <= i < |batches| ==> BatchIn(g, a, sources[i], batches[i], l)
  }

  ghost predicate BatchIn(g: Graph, a: Store, src: Source, b: Batch, l: Load) {
    && Held(g, a, src, b) && |b.first| == |b.order| && l.Has(src.table)
    && l.base[src.table] == Own(a, src, b) && l.last[src.table] == Lasts(a, src, b)
  }

  /** The table is left with exactly the rows its batch comes to. */
  ghost predicate LeftAs(a: Store, src: Source, b: Batch, s: Store) {
    Permutes(b.order, |Table(a, src.table)|) && |b.first| == |b.order| && Table(s, src.table) == Lasts(a, src, b)
  }

  /**
  ImportData over an archive of a sound database, into empty tables. The batches
  are what the sources were made ready as, up to the first refused. The import
  goes through exactly when each is accepted; if not, the database is as it was.
  If it does, every foreign key holds, each table has its archived rows less the
  columns each lost both to a deferred self-reference and to a reference held for
  a later table, and so it has exactly the archived rows when and only when no
  row of it has such a column. Each INSERT and UPDATE on the way left every
  foreign key satisfied, since the statements refuse otherwise.
  */
  method ImportData(g: Graph, a: Store, sources: seq<Source>, empty: Store) returns (ok: bool, store: Store, ghost batches: seq<Batch>)
    requires SoundArchive(g, a) && SourcesFit(g, sources)
    requires forall t :: Table(empty, t) == [] && (t !in g.tables ==> Table(a, t) == [])
    ensures AllPrepared(g, a, sources, batches) && (ok <==> AllAccepted(g, sources, batches))
    ensures !ok ==> store == empty && exists i :: 0 <= i < |sources| && (Troubled(g, sources[i]) || Shares(sources[i]))
    ensures ok ==> |batches| == |sources| && Intact(g, store)
    ensures ok ==> forall i :: 0 <= i < |sources| ==> LeftAs(a, sources[i], batches[i], store)
    ensures ok ==> forall i :: 0 <= i < |sources| ==>
                     (multiset(Table(store, sources[i].table)) == multiset(Table(a, sources[i].table)) <==> Apart(sources[i], batches[i]))
    ensures ok && (forall i :: 0 <= i < |sources| ==> Apart(sources[i], batches[i])) ==>
              forall t :: multiset(Table(store, t)) == multiset(Table(a, t))
  {
    var tx := new Restore(g, empty);
    assert tx.In(a, {});
    hide *;
    var held;
    ok, held, batches := tx.WriteSources(a, sources);
    if !ok {
      SomeHasCause(g, a, sources, batches);
      return false, empty, batches;
    }
    AllTablesIn(g, sources);
    tx.ApplyHeld(a, sources, held);
    store := tx.store;
    tx.Unpack(a, Emitted(sources, |sources|));
    LoadedIsIntact(g, a, tx.load, store, Emitted(sources, |sources|));
    RestoreLeaves(g, a, sources, batches, held, tx.load, store);
  }

  lemma SomeHasCause(g: Graph, a: Store, sources: seq<Source>, batches: seq<Batch>)
    requires SoundArchive(g, a) && SourcesFit(g, sources) && AllPrepared(g, a, sources, batches) && !AllAccepted(g, sources, batches)
    ensures exists i :: 0 <= i < |sources| && (Troubled(g, sources[i]) || Shares(sources[i]))
  {
    hide SoundArchive, Prepared, Accepted, Troubled, Shares, SourceFits;
    var i :| 0 <= i < |batches| && !Accepted(g, sources[i], batches[i]);
    RefusalHasCause(g, a, sources[i], batches[i], Emitted(sources, i));
  }

  lemma AllTablesIn(g: Graph, sources: seq<Source>)
    requires SourcesFit(g, sources)
    ensures forall t :: t in g.tables <==> t in Emitted(sources, |sources|)
    ensures forall i, j :: 0 <= i < j < |sources| ==> sources[i].table != sources[j].table
  {
  }

  lemma HeldRefAt(g: Graph, sources: seq<Source>, held: seq<(string, seq<DeferredRef>)>, pend: map<string, seq<DeferredRef>>, n: nat)
    requires HeldRefs(sources, |sources|, held, pend, n) && n < |held|
    ensures held[n].0 in Emitted(sources, |sources|) && Shaped(held[n].1)
    ensures held[n].0 in pend && pend[held[n].0] == held[n].1
  {
    assert held[n].0 == sources[n].table;
  }

  /** What one source's table holds in the end. */
  lemma TableLeft(g: Graph, a: Store, src: Source, b: Batch, l: Load, s: Store, ready: set<string>)
    requires Loaded(g, a, l, s, ready) && src.table in ready && BatchIn(g, a, src, b, l) && l.pend[src.table] == []
    ensures LeftAs(a, src, b, s)
  {
    Lengths(g, a, src, b);
    hide TableIn, RefsReady, Held;
    TableOf(g, a, l, s, ready, src.table);
    NothingOwed(g, a, src.table, l.base[src.table], l.last[src.table], Table(s, src.table));
  }

  lemma RestoreLeaves(g: Graph, a: Store, sources: seq<Source>, batches: seq<Batch>, held: seq<(string, seq<DeferredRef>)>, l: Load, s: Store)
    requires SoundArchive(g, a) && SourcesFit(g, sources) && |batches| == |sources|
    requires Loaded(g, a, l, s, Emitted(sources, |sources|)) && HeldRefs(sources, |sources|, held, l.pend, |sources|)
    requires Batched(g, a, sources, batches, l) && AllAccepted(g, sources, batches)
    requires forall t :: t !in g.tables ==> Table(a, t) == []
    ensures forall i :: 0 <= i < |sources| ==> LeftAs(a, sources[i], batches[i], s)
    ensures forall i :: 0 <= i < |sources| ==>
              (multiset(Table(s, sources[i].table)) == multiset(Table(a, sources[i].table)) <==> Apart(sources[i], batches[i]))
    ensures (forall i :: 0 <= i < |sources| ==> Apart(sources[i], batches[i])) ==> forall t :: multiset(Table(s, t)) == multiset(Table(a, t))
  {
    hide SoundArchive, SourceFits, Loaded, BatchIn, LeftAs, Apart, Accepted;
    forall i | 0 <= i < |sources|
      ensures LeftAs(a, sources[i], batches[i], s)
      ensures multiset(Table(s, sources[i].table)) == multiset(Table(a, sources[i].table)) <==> Apart(sources[i], batches[i])
    {
      assert held[i].0 == sources[i].table;
      SourceLeft(g, a, sources[i], batches[i], l, s, Emitted(sources, i), Emitted(sources, |sources|));
    }
    forall t | t !in g.tables ensures Table(s, t) == Table(a, t) {
      NotIn(g, a, l, s, Emitted(sources, |sources|), t);
    }
  }

  lemma NotIn(g: Graph, a: Store, l: Load, s: Store, ready: set<string>, t: string)
    requires Loaded(g, a, l, s, ready) && t !in ready
    ensures Table(s, t) == []
  {
  }

  lemma SourceLeft(g: Graph, a: Store, src: Source, b: Batch, l: Load, s: Store, before: set<string>, ready: set<string>)
    requires SoundArchive(g, a) && SourceFits(g, src, before) && Accepted(g, src, b)
    requires Loaded(g, a, l, s, ready) && src.table in ready && BatchIn(g, a, src, b, l) && l.pend[src.table] == []
    ensures LeftAs(a, src, b, s)
    ensures multiset(Table(s, src.table)) == multiset(Table(a, src.table)) <==> Apart(src, b)
  {
    hide SoundArchive, SourceFits, Loaded, Held, Apart;
    TableLeft(g, a, src, b, l, s, ready);
    RestoredExactlyWhenApart(g, a, src, b, before);
  }

  lemma NothingWritten(g: Graph, a: Store, sources: seq<Source>, l: Load)
    ensures Emitted(sources, 0) == {} && HeldRefs(sources, 0, [], l.pend, 0) && Batched(g, a, sources, [], l)
    ensures AllPrepared(g, a, sources, []) && AllAccepted(g, sources, [])
  {
  }

  lemma SourceAt(g: Graph, sources: seq<Source>, n: nat)
    requires SourcesFit(g, sources) && n < |sources|
    ensures SourceFits(g, sources[n], Emitted(sources, n)) && sources[n].table !in Emitted(sources, n)
    ensures forall i :: 0 <= i < n ==> sources[i].table != sources[n].table
  {
  }

  lemma PreparedOneMore(g: Graph, a: Store, sources: seq<Source>, batches: seq<Batch>, b: Batch)
    requires |batches| < |sources| && AllPrepared(g, a, sources, batches) && AllAccepted(g, sources, batches)
    requires Prepared(g, a, sources[|batches|], b)
    ensures AllPrepared(g, a, sources, batches + [b])
    ensures AllAccepted(g, sources, batches + [b]) <==> Accepted(g, sources[|batches|], b)
  {
    assert (batches + [b])[|batches|] == b;
  }

  lemma BatchedOneMore(g: Graph, a: Store, sources: seq<Source>, batches: seq<Batch>, b: Batch, l: Load, l': Load)
    requires |batches| < |sources| && Batched(g, a, sources, batches, l)
    requires var src := sources[|batches|];
             && Held(g, a, src, b) && |b.first| == |b.order|
             && l' == l.With(src.table, Own(a, src, b), Lasts(a, src, b), b.later)
    requires forall i :: 0 <= i < |batches| ==> sources[i].table != sources[|batches|].table
    ensures Batched(g, a, sources, batches + [b], l') && l'.pend == l.pend[sources[|batches|].table := b.later]
  {
    hide Held;
    forall i | 0 <= i < |batches| + 1 ensures BatchIn(g, a, sources[i], (batches + [b])[i], l') {
      if i < |batches| {
        assert BatchIn(g, a, sources[i], batches[i], l);
      }
    }
  }

  lemma HeldOneSource(sources: seq<Source>, n: nat, held: seq<(string, seq<DeferredRef>)>, pend: map<string, seq<DeferredRef>>, later: seq<DeferredRef>)
    requires n < |sources| && HeldRefs(sources, n, held, pend, 0) && Shaped(later)
    requires forall i :: 0 <= i < n ==> sources[i].table != sources[n].table
    ensures HeldRefs(sources, n + 1, held + [(sources[n].table, later)], pend[sources[n].table := later], 0)
  {
  }

  lemma HeldOneLess(sources: seq<Source>, held: seq<(string, seq<DeferredRef>)>, pend: map<string, seq<DeferredRef>>, n: nat)
    requires HeldRefs(sources, |sources|, held, pend, n) && n < |held|
    requires forall i, j :: 0 <= i < j < |sources| ==> sources[i].table != sources[j].table
    ensures HeldRefs(sources, |sources|, held, pend[held[n].0 := []], n + 1)
  {
  }

  /** Once every table is in, the held references all go back in. */
  lemma HeldApplies(g: Graph, a: Store, l: Load, s: Store, ready: set<string>, t: string, refs: seq<DeferredRef>)
    requires SoundArchive(g, a) && Loaded(g, a, l, s, ready) && t in ready && t in l.pend && l.pend[t] == refs && Shaped(refs)
    requires (forall u :: u in g.tables ==> u in ready) && (refs != [] ==> g.Key(t) != [])
    ensures ApplyAll(g, s, t, refs).Ok? && Loaded(g, a, l.(pend := l.pend[t := []]), ApplyAll(g, s, t, refs).value, ready)
  {
    TableOf(g, a, l, s, ready, t);
    assert Barred(g, t, l.base[t], Table(s, t), refs, ready);
    hide *;
    AllApplied(g, a, l, s, ready, t);
  }
}
