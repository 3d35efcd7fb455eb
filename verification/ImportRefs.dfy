/**
Why the restore's rows stay referentially intact: every row written is an
archived row with some references emptied, and every emptied reference is owed
back to it.
*/
module ImportRefs {
  import opened Relational
  import opened RowOrder
  import opened ImportModel

  /** `ref` sets its columns to what `row` has in them, found by that row's key. */
  ghost predicate TakenFrom(row: Row, key: seq<string>, ref: DeferredRef) {
    ref.key == Cells(row, key) && ref.vals == Cells(row, ref.cols)
  }

  /** Some pending reference owes the row this column. */
  ghost predicate Owed(row: Row, key: seq<string>, pend: seq<DeferredRef>, c: string) {
    exists d :: d in pend && TakenFrom(row, key, d) && c in d.cols
  }

  /** `last` is `orig` less the columns that do not come back; its key and NOT NULL columns do. */
  ghost predicate LastRow(g: Graph, t: string, orig: Row, last: Row) {
    last.Keys == orig.Keys && Masks(orig, last) && Cells(last, g.Key(t)) == Cells(orig, g.Key(t)) && NotNullHolds(g, t, last)
  }

  /** `cur` is on its way from `orig` to `last`: what it lacks of `last` is owed to it. */
  ghost predicate KeptRow(g: Graph, t: string, orig: Row, last: Row, cur: Row, pend: seq<DeferredRef>) {
    && LastRow(g, t, orig, cur)
    && forall c {:trigger At(cur, c)} :: At(cur, c) == At(last, c) || Owed(last, g.Key(t), pend, c)
  }

  ghost predicate TableKept(g: Graph, t: string, base: seq<Row>, last: seq<Row>, cur: seq<Row>, pend: seq<DeferredRef>) {
    && |cur| == |base| == |last|
    && (forall k :: 0 <= k < |cur| ==> LastRow(g, t, base[k], last[k]))
    && (forall k :: 0 <= k < |cur| ==> KeptRow(g, t, base[k], last[k], cur[k], pend))
  }

  /** Each pending reference belongs to a row of the table. */
  ghost predicate PendSound(g: Graph, t: string, last: seq<Row>, pend: seq<DeferredRef>) {
    forall d :: d in pend ==> |d.cols| == |d.vals| && exists k :: 0 <= k < |last| && TakenFrom(last[k], g.Key(t), d)
  }

  /** A reference still in a row of `t` names a table that is in. */
  ghost predicate RefsReady(g: Graph, t: string, cur: seq<Row>, ready: set<string>) {
    forall e, k :: e in g.edges && e.child == t && 0 <= k < |cur| && Full(Cells(cur[k], e.cols)) ==> e.parent in ready
  }

  /**
  One table written in full: `base` is its archived rows in the order they went
  in, `last` the rows they come to once everything pending is set.
  */
  ghost predicate TableIn(g: Graph, a: Store, t: string, base: seq<Row>, last: seq<Row>, cur: seq<Row>, pend: seq<DeferredRef>) {
    && multiset(base) == multiset(Table(a, t))
    && TableKept(g, t, base, last, cur, pend) && PendSound(g, t, last, pend)
  }

  /** What has been written: table by table, the archived rows, the rows they come to, and what is pending. */
  datatype Load = Load(base: Store, last: Store, pend: map<string, seq<DeferredRef>>)
  {
    function With(t: string, own: seq<Row>, rows: seq<Row>, owed: seq<DeferredRef>): Load {
      Load(base[t := own], last[t := rows], pend[t := owed])
    }

    predicate Has(t: string) {
      t in base && t in last && t in pend
    }
  }

  /** The whole load: the tables in, and nothing anywhere else. */
  ghost predicate Loaded(g: Graph, a: Store, l: Load, s: Store, ready: set<string>) {
    && (forall t :: t in ready ==> LoadedTable(g, a, l, s, ready, t))
    && (forall t :: t !in ready ==> Table(s, t) == [])
  }

  ghost predicate LoadedTable(g: Graph, a: Store, l: Load, s: Store, ready: set<string>, t: string) {
    l.Has(t) && TableIn(g, a, t, l.base[t], l.last[t], Table(s, t), l.pend[t]) && RefsReady(g, t, Table(s, t), ready)
  }

  /** A key some archived row of a loaded table has is there to be referenced. */
  lemma KeyIsIn(g: Graph, a: Store, t: string, base: seq<Row>, last: seq<Row>, cur: seq<Row>, pend: seq<DeferredRef>, ks: seq<Cell>)
    requires TableIn(g, a, t, base, last, cur, pend) && HoldsKey(Table(a, t), g.Key(t), ks)
    ensures HoldsKey(cur, g.Key(t), ks)
  {
    var i :| 0 <= i < |Table(a, t)| && Cells(Table(a, t)[i], g.Key(t)) == ks;
    var row := Table(a, t)[i];
    assert row in multiset(Table(a, t));
    assert row in base;
    var k :| 0 <= k < |base| && base[k] == row;
    assert KeptRow(g, t, base[k], last[k], cur[k], pend);
    assert Cells(cur[k], g.Key(t)) == ks;
  }

  /** A reference still in a restored row is the archived row's own, so the archive holds its target. */
  lemma ReferenceArchived(g: Graph, a: Store, e: Edge, base: seq<Row>, row: Row, k: nat)
    requires SoundArchive(g, a) && e in g.edges && multiset(base) == multiset(Table(a, e.child))
    requires k < |base| && Masks(base[k], row) && Full(Cells(row, e.cols))
    ensures HoldsKey(Table(a, e.parent), e.key, Cells(row, e.cols))
  {
    MasksKeepFullCells(base[k], row, e.cols);
    assert base[k] in multiset(base);
    assert base[k] in Table(a, e.child);
    var i :| 0 <= i < |Table(a, e.child)| && Table(a, e.child)[i] == base[k];
    assert Satisfied(a, e, Table(a, e.child)[i]);
  }

  lemma LoadedRow(g: Graph, a: Store, l: Load, s: Store, ready: set<string>, e: Edge, k: nat)
    requires SoundArchive(g, a) && Loaded(g, a, l, s, ready) && e in g.edges && k < |Table(s, e.child)|
    ensures Satisfied(s, e, Table(s, e.child)[k])
  {
    var row := Table(s, e.child)[k];
    if Full(Cells(row, e.cols)) {
      assert e.child in ready && LoadedTable(g, a, l, s, ready, e.child) && TableIn(g, a, e.child, l.base[e.child], l.last[e.child], Table(s, e.child), l.pend[e.child]);
      assert RefsReady(g, e.child, Table(s, e.child), ready) && e.parent in ready && LoadedTable(g, a, l, s, ready, e.parent);
      assert KeptRow(g, e.child, l.base[e.child][k], l.last[e.child][k], row, l.pend[e.child]);
      ReferenceArchived(g, a, e, l.base[e.child], row, k);
      KeyIsIn(g, a, e.parent, l.base[e.parent], l.last[e.parent], Table(s, e.parent), l.pend[e.parent], Cells(row, e.cols));
    }
  }

  lemma LoadedIsIntact(g: Graph, a: Store, l: Load, s: Store, ready: set<string>)
    requires SoundArchive(g, a) && Loaded(g, a, l, s, ready)
    ensures Intact(g, s)
  {
    forall e, k | e in g.edges && 0 <= k < |Table(s, e.child)| ensures Satisfied(s, e, Table(s, e.child)[k]) {
      LoadedRow(g, a, l, s, ready, e, k);
    }
  }

  // ---- Writing one table ---------------------------------------------------

  /** A reference of the row at `k` finds its target: in an earlier table, earlier in its own, or nowhere yet needed. */
  ghost predicate Placed(g: Graph, t: string, base: seq<Row>, rows: seq<Row>, ready: set<string>, k: nat)
    requires |base| == |rows| && k < |rows|
  {
    forall e :: e in g.edges && e.child == t && Full(Cells(rows[k], e.cols)) ==>
      e.parent in ready || (e.parent == t && exists m :: 0 <= m <= k && Cells(base[m], e.key) == Cells(rows[k], e.cols))
  }

  /** The rows of `t` about to be written, on top of the tables already in. */
  ghost predicate Writing(g: Graph, a: Store, l: Load, s: Store, ready: set<string>,
                          t: string, own: seq<Row>, last: seq<Row>, rows: seq<Row>, owed: seq<DeferredRef>) {
    && SoundArchive(g, a) && Loaded(g, a, l, s, ready) && t !in ready
    && TableIn(g, a, t, own, last, rows, owed)
    && (forall k :: 0 <= k < |rows| ==> Placed(g, t, own, rows, ready, k))
  }

  lemma WriteKeepsLoaded(g: Graph, a: Store, l: Load, s: Store, ready: set<string>,
                         t: string, own: seq<Row>, last: seq<Row>, rows: seq<Row>, owed: seq<DeferredRef>, n: nat, e: Edge, k: nat)
    requires Writing(g, a, l, s, ready, t, own, last, rows, owed) && n <= |rows|
    requires e in g.edges && k < |Table(s[t := rows[..n]], e.child)|
    ensures Satisfied(s[t := rows[..n]], e, Table(s[t := rows[..n]], e.child)[k])
  {
    var now := s[t := rows[..n]];
    var row := Table(now, e.child)[k];
    if e.child != t {
      LoadedRow(g, a, l, s, ready, e, k);
      assert Table(now, e.child) == Table(s, e.child);
      if Full(Cells(row, e.cols)) {
        assert RefsReady(g, e.child, Table(s, e.child), ready) && e.parent in ready && LoadedTable(g, a, l, s, ready, e.parent);
        assert Table(now, e.parent) == Table(s, e.parent);
      }
    } else if Full(Cells(row, e.cols)) {
      assert row == rows[k] && Placed(g, t, own, rows, ready, k) && KeptRow(g, t, own[k], last[k], rows[k], owed);
      if e.parent in ready {
        ReferenceArchived(g, a, e, own, row, k);
        KeyIsIn(g, a, e.parent, l.base[e.parent], l.last[e.parent], Table(s, e.parent), l.pend[e.parent], Cells(row, e.cols));
        assert Table(now, e.parent) == Table(s, e.parent);
      } else {
        var m :| 0 <= m <= k && Cells(own[m], e.key) == Cells(row, e.cols);
        assert KeptRow(g, t, own[m], last[m], rows[m], owed);
        assert Table(now, t)[m] == rows[m];
      }
    }
  }

  /** The next row's key is not among those already written. */
  lemma KeyIsNew(g: Graph, a: Store, t: string, own: seq<Row>, last: seq<Row>, rows: seq<Row>, owed: seq<DeferredRef>, n: nat)
    requires SoundArchive(g, a) && TableIn(g, a, t, own, last, rows, owed) && n < |rows| && g.Key(t) != []
    ensures !HoldsKey(rows[..n], g.Key(t), Cells(rows[n], g.Key(t)))
  {
    assert KeptRow(g, t, own[n], last[n], rows[n], owed);
    forall i | 0 <= i < n ensures Cells(rows[..n][i], g.Key(t)) != Cells(rows[n], g.Key(t)) {
      assert KeptRow(g, t, own[i], last[i], rows[i], owed);
      KeysStayUnique(own, Table(a, t), g.Key(t), i, n);
    }
  }

  lemma NextIsIntact(g: Graph, a: Store, l: Load, s: Store, ready: set<string>,
                     t: string, own: seq<Row>, last: seq<Row>, rows: seq<Row>, owed: seq<DeferredRef>, n: nat)
    requires Writing(g, a, l, s, ready, t, own, last, rows, owed) && n < |rows|
    ensures Intact(g, s[t := rows[..n + 1]]) && NotNullHolds(g, t, rows[n])
    ensures g.Key(t) != [] ==> !HoldsKey(rows[..n], g.Key(t), Cells(rows[n], g.Key(t)))
  {
    hide Loaded, SoundArchive, Satisfied, HoldsKey, PendSound;
    var next := s[t := rows[..n + 1]];
    forall e, k | e in g.edges && 0 <= k < |Table(next, e.child)| ensures Satisfied(next, e, Table(next, e.child)[k]) {
      WriteKeepsLoaded(g, a, l, s, ready, t, own, last, rows, owed, n + 1, e, k);
    }
    assert KeptRow(g, t, own[n], last[n], rows[n], owed);
    if g.Key(t) != [] { KeyIsNew(g, a, t, own, last, rows, owed, n); }
  }

  /** Each INSERT of the table goes through. */
  lemma InsertSucceeds(g: Graph, a: Store, l: Load, s: Store, ready: set<string>,
                       t: string, own: seq<Row>, last: seq<Row>, rows: seq<Row>, owed: seq<DeferredRef>, n: nat)
    requires Writing(g, a, l, s, ready, t, own, last, rows, owed) && n < |rows|
    ensures Insert(g, s[t := rows[..n]], t, rows[n]) == Ok(s[t := rows[..n + 1]])
  {
    hide Writing, Intact, NotNullHolds, HoldsKey;
    NextIsIntact(g, a, l, s, ready, t, own, last, rows, owed, n);
    assert rows[..n] + [rows[n]] == rows[..n + 1];
    assert s[t := rows[..n]][t := rows[..n + 1]] == s[t := rows[..n + 1]];
  }

  /** Reordering the rows keeps their keys distinct. */
  lemma KeysStayUnique(own: seq<Row>, rows: seq<Row>, key: seq<string>, i: nat, n: nat)
    requires multiset(own) == multiset(rows) && UniqueIn(rows, key) && i < n < |own|
    ensures Cells(own[i], key) != Cells(own[n], key)
  {
    if Cells(own[i], key) == Cells(own[n], key) {
      assert own[i] in multiset(rows) && own[n] in multiset(rows);
      var x :| 0 <= x < |rows| && rows[x] == own[i];
      var y :| 0 <= y < |rows| && rows[y] == own[n];
      assert own[i] == own[n];
      hide *;
      TwoCopies(own, i, n);
      OneCopy(rows, x);
    }
  }

  lemma TwoCopies(s: seq<Row>, i: nat, n: nat)
    requires i < n < |s| && s[i] == s[n]
    ensures multiset(s)[s[n]] >= 2
  {
    assert s == s[..n] + s[n..];
    assert s[..n][i] in multiset(s[..n]) && s[n..][0] in multiset(s[n..]);
  }

  lemma OneCopy(s: seq<Row>, x: nat)
    requires x < |s| && forall j :: 0 <= j < |s| && j != x ==> s[j] != s[x]
    ensures multiset(s)[s[x]] == 1
  {
    assert s == s[..x] + [s[x]] + s[x + 1..];
    assert s[x] !in s[..x] && s[x] !in s[x + 1..];
  }

  lemma TableJoins(g: Graph, a: Store, l: Load, s: Store, ready: set<string>,
                   t: string, own: seq<Row>, last: seq<Row>, rows: seq<Row>, owed: seq<DeferredRef>)
    requires Writing(g, a, l, s, ready, t, own, last, rows, owed)
    ensures Loaded(g, a, l.With(t, own, last, owed), s[t := rows], ready + {t})
  {
    forall e, k | e in g.edges && e.child == t && 0 <= k < |rows| && Full(Cells(rows[k], e.cols)) ensures e.parent in ready + {t} {
      assert Placed(g, t, own, rows, ready, k);
    }
    LoadedWith(g, a, l, s, ready, t, own, last, rows, owed);
  }

  lemma RefsReadyMore(g: Graph, t: string, cur: seq<Row>, ready: set<string>, more: set<string>)
    requires RefsReady(g, t, cur, ready) && ready <= more
    ensures RefsReady(g, t, cur, more)
  {
  }

  /** Putting one table in place of what was there leaves the others as they were. */
  lemma LoadedWith(g: Graph, a: Store, l: Load, s: Store, ready: set<string>,
                   t: string, own: seq<Row>, last: seq<Row>, rows: seq<Row>, owed: seq<DeferredRef>)
    requires Loaded(g, a, l, s, ready) && TableIn(g, a, t, own, last, rows, owed) && RefsReady(g, t, rows, ready + {t})
    ensures Loaded(g, a, l.With(t, own, last, owed), s[t := rows], ready + {t})
  {
    hide TableIn, RefsReady;
    var l', s' := l.With(t, own, last, owed), s[t := rows];
    forall u | u in ready + {t} ensures LoadedTable(g, a, l', s', ready + {t}, u) {
      if u != t {
        assert LoadedTable(g, a, l, s, ready, u);
        RefsReadyMore(g, u, Table(s, u), ready, ready + {t});
      }
    }
  }

  // ---- Setting a deferred reference ----------------------------------------

  /** The rows at the two places have the same key only if they are one. */
  lemma KeysDiffer(g: Graph, a: Store, t: string, base: seq<Row>, k: nat)
    requires SoundArchive(g, a) && multiset(base) == multiset(Table(a, t)) && g.Key(t) != [] && k < |base|
    ensures forall i :: 0 <= i < |base| && i != k ==> Cells(base[i], g.Key(t)) != Cells(base[k], g.Key(t))
    ensures Full(Cells(base[k], g.Key(t)))
  {
    forall i | 0 <= i < |base| && i != k ensures Cells(base[i], g.Key(t)) != Cells(base[k], g.Key(t)) {
      if i < k { KeysStayUnique(base, Table(a, t), g.Key(t), i, k); }
      else { KeysStayUnique(base, Table(a, t), g.Key(t), k, i); }
    }
    assert base[k] in multiset(base) && base[k] in Table(a, t);
  }

  /** The pending reference reaches exactly the row it belongs to. */
  lemma OneHit(g: Graph, a: Store, t: string, base: seq<Row>, last: seq<Row>, cur: seq<Row>, pend: seq<DeferredRef>, d: DeferredRef, k: nat)
    requires SoundArchive(g, a) && TableIn(g, a, t, base, last, cur, pend) && g.Key(t) != []
    requires k < |base| && TakenFrom(last[k], g.Key(t), d)
    ensures Hits(g, t, cur, d) == {k}
    ensures forall i :: 0 <= i < |cur| ==> (Hit(g, t, cur[i], d) <==> i == k)
    ensures forall i :: 0 <= i < |cur| && i != k ==> !TakenFrom(last[i], g.Key(t), d)
  {
    KeysDiffer(g, a, t, base, k);
    hide SoundArchive, NotNullHolds, Owed;
    assert LastRow(g, t, base[k], last[k]);
    forall i | 0 <= i < |cur| ensures (Hit(g, t, cur[i], d) <==> i == k) && (i != k ==> !TakenFrom(last[i], g.Key(t), d)) {
      assert KeptRow(g, t, base[i], last[i], cur[i], pend) && LastRow(g, t, base[i], last[i]);
    }
  }

  lemma SameKeyCells(orig: Row, cur: Row, last: Row, row: Row, key: seq<string>)
    requires Cells(cur, key) == Cells(orig, key) == Cells(last, key)
    requires forall c :: At(row, c) == At(last, c) || At(row, c) == At(cur, c)
    ensures Cells(row, key) == Cells(orig, key)
  {
    forall i | 0 <= i < |key| ensures At(row, key[i]) == At(orig, key[i]) {
      assert Cells(cur, key)[i] == Cells(orig, key)[i] == Cells(last, key)[i];
    }
  }

  lemma OwedByRest(row: Row, key: seq<string>, pend: seq<DeferredRef>, c: string)
    requires pend != [] && Owed(row, key, pend, c) && !(TakenFrom(row, key, pend[0]) && c in pend[0].cols)
    ensures Owed(row, key, pend[1..], c)
  {
    var x :| x in pend && TakenFrom(row, key, x) && c in x.cols;
    assert x in pend[1..];
  }

  lemma RowRestored(g: Graph, t: string, orig: Row, last: Row, cur: Row, pend: seq<DeferredRef>)
    requires pend != [] && KeptRow(g, t, orig, last, cur, pend) && LastRow(g, t, orig, last)
    requires |pend[0].cols| == |pend[0].vals| && TakenFrom(last, g.Key(t), pend[0])
    ensures KeptRow(g, t, orig, last, Assign(cur, pend[0].cols, pend[0].vals), pend[1..])
  {
    hide Owed;
    var d, row := pend[0], Assign(cur, pend[0].cols, pend[0].vals);
    AssignRestores(cur, last, d.cols);
    assert forall c :: At(row, c) == if c in d.cols then At(last, c) else At(cur, c);
    SameKeyCells(orig, cur, last, row, g.Key(t));
    forall c ensures At(row, c) == At(last, c) || Owed(last, g.Key(t), pend[1..], c) {
      if c !in d.cols && At(cur, c) != At(last, c) { OwedByRest(last, g.Key(t), pend, c); }
    }
  }

  lemma RowUntouched(g: Graph, t: string, orig: Row, last: Row, cur: Row, pend: seq<DeferredRef>)
    requires pend != [] && KeptRow(g, t, orig, last, cur, pend) && !TakenFrom(last, g.Key(t), pend[0])
    ensures KeptRow(g, t, orig, last, cur, pend[1..])
  {
    hide Owed;
    forall c ensures At(cur, c) == At(last, c) || Owed(last, g.Key(t), pend[1..], c) {
      if At(cur, c) != At(last, c) { OwedByRest(last, g.Key(t), pend, c); }
    }
  }

  lemma TableRestored(g: Graph, a: Store, t: string, base: seq<Row>, last: seq<Row>, cur: seq<Row>, pend: seq<DeferredRef>)
    requires SoundArchive(g, a) && TableIn(g, a, t, base, last, cur, pend) && pend != [] && g.Key(t) != []
    ensures |pend[0].cols| == |pend[0].vals| && |Hits(g, t, cur, pend[0])| == 1
    ensures TableIn(g, a, t, base, last, Updated(g, t, cur, pend[0]), pend[1..])
  {
    hide SoundArchive, KeptRow, LastRow, TakenFrom, Hit, Hits;
    var d := pend[0];
    assert d in pend;
    var k :| 0 <= k < |last| && TakenFrom(last[k], g.Key(t), d);
    OneHit(g, a, t, base, last, cur, pend, d, k);
    assert forall x :: x in pend[1..] ==> x in pend;
    forall i | 0 <= i < |cur| ensures KeptRow(g, t, base[i], last[i], Updated(g, t, cur, d)[i], pend[1..]) {
      if i == k {
        RowRestored(g, t, base[k], last[k], cur[k], pend);
      } else {
        RowUntouched(g, t, base[i], last[i], cur[i], pend);
      }
    }
  }

  /**
  None of the pending references completes a reference to a table not yet in:
  each such reference has a NULL no pending one of its row sets.
  */
  ghost predicate Barred(g: Graph, t: string, base: seq<Row>, cur: seq<Row>, pend: seq<DeferredRef>, ready: set<string>) {
    |cur| == |base| && forall e, k :: e in g.edges && e.child == t && e.parent !in ready && 0 <= k < |cur| ==>
      BarredRow(g, t, base[k], cur[k], pend, e)
  }

  ghost predicate BarredRow(g: Graph, t: string, orig: Row, cur: Row, pend: seq<DeferredRef>, e: Edge) {
    exists c :: c in e.cols && At(cur, c) == Null && NotSet(g, t, orig, pend, c)
  }

  ghost predicate NotSet(g: Graph, t: string, orig: Row, pend: seq<DeferredRef>, c: string) {
    forall d :: d in pend && d.key == Cells(orig, g.Key(t)) ==> c !in d.cols
  }

  lemma BarredIsPartial(g: Graph, t: string, orig: Row, cur: Row, pend: seq<DeferredRef>, e: Edge)
    requires BarredRow(g, t, orig, cur, pend, e)
    ensures !Full(Cells(cur, e.cols))
  {
    var c :| c in e.cols && At(cur, c) == Null;
    var i :| 0 <= i < |e.cols| && e.cols[i] == c;
    assert Cells(cur, e.cols)[i] == Null;
  }

  lemma BarredIsReady(g: Graph, t: string, base: seq<Row>, cur: seq<Row>, pend: seq<DeferredRef>, ready: set<string>)
    requires Barred(g, t, base, cur, pend, ready)
    ensures RefsReady(g, t, cur, ready)
  {
    forall e, k | e in g.edges && e.child == t && 0 <= k < |cur| && e.parent !in ready ensures !Full(Cells(cur[k], e.cols)) {
      BarredIsPartial(g, t, base[k], cur[k], pend, e);
    }
  }

  lemma BarredAfterUpdate(g: Graph, a: Store, t: string, base: seq<Row>, last: seq<Row>, cur: seq<Row>, pend: seq<DeferredRef>, ready: set<string>)
    requires TableIn(g, a, t, base, last, cur, pend) && pend != [] && |pend[0].cols| == |pend[0].vals|
    requires Barred(g, t, base, cur, pend, ready)
    ensures Barred(g, t, base, Updated(g, t, cur, pend[0]), pend[1..], ready)
  {
    var d, next := pend[0], Updated(g, t, cur, pend[0]);
    assert d in pend && forall x :: x in pend[1..] ==> x in pend;
    forall e, k | e in g.edges && e.child == t && e.parent !in ready && 0 <= k < |cur|
      ensures BarredRow(g, t, base[k], next[k], pend[1..], e)
    {
      assert BarredRow(g, t, base[k], cur[k], pend, e) && KeptRow(g, t, base[k], last[k], cur[k], pend);
      var c :| c in e.cols && At(cur[k], c) == Null && NotSet(g, t, base[k], pend, c);
      assert NotSet(g, t, base[k], pend[1..], c) && At(next[k], c) == Null;
    }
  }

  lemma TableOf(g: Graph, a: Store, l: Load, s: Store, ready: set<string>, t: string)
    requires Loaded(g, a, l, s, ready) && t in ready
    ensures l.Has(t) && TableIn(g, a, t, l.base[t], l.last[t], Table(s, t), l.pend[t]) && RefsReady(g, t, Table(s, t), ready)
  {
    hide TableIn, RefsReady;
  }

  lemma UpdateLoads(g: Graph, a: Store, l: Load, s: Store, ready: set<string>, t: string)
    requires SoundArchive(g, a) && Loaded(g, a, l, s, ready) && t in ready && g.Key(t) != []
    requires l.Has(t) && l.pend[t] != [] && Barred(g, t, l.base[t], Table(s, t), l.pend[t], ready)
    ensures var d, rest := l.pend[t][0], l.pend[t][1..];
            && |d.cols| == |d.vals| && |Hits(g, t, Table(s, t), d)| == 1
            && Loaded(g, a, l.(pend := l.pend[t := rest]), s[t := Updated(g, t, Table(s, t), d)], ready)
            && Barred(g, t, l.base[t], Updated(g, t, Table(s, t), d), rest, ready)
            && forall i :: 0 <= i < |Table(s, t)| ==> NotNullHolds(g, t, Updated(g, t, Table(s, t), d)[i])
  {
    var own, last, rest := l.base[t], l.last[t], l.pend[t][1..];
    hide *;
    TableOf(g, a, l, s, ready, t);
    TableRestored(g, a, t, own, last, Table(s, t), l.pend[t]);
    var rows := Updated(g, t, Table(s, t), l.pend[t][0]);
    BarredAfterUpdate(g, a, t, own, last, Table(s, t), l.pend[t], ready);
    BarredIsReady(g, t, own, rows, rest, ready);
    LoadedAgain(g, a, l, s, ready, t, last, rows, rest);
    assert l.last[t := last] == l.last;
    RestoredNotNull(g, a, t, own, last, rows, rest);
  }

  /** The same table with other rows in it. */
  lemma LoadedAgain(g: Graph, a: Store, l: Load, s: Store, ready: set<string>, t: string, last: seq<Row>, rows: seq<Row>, owed: seq<DeferredRef>)
    requires Loaded(g, a, l, s, ready) && t in ready && t in l.base
    requires TableIn(g, a, t, l.base[t], last, rows, owed) && RefsReady(g, t, rows, ready)
    ensures Loaded(g, a, Load(l.base, l.last[t := last], l.pend[t := owed]), s[t := rows], ready)
  {
    hide TableIn, RefsReady;
    assert l.base[t := l.base[t]] == l.base && ready + {t} == ready;
    LoadedWith(g, a, l, s, ready, t, l.base[t], last, rows, owed);
  }

  /** One UPDATE of applyDeferredRefs goes through and pays off the oldest reference owed. */
  lemma UpdateSucceeds(g: Graph, a: Store, l: Load, s: Store, ready: set<string>, t: string)
    requires SoundArchive(g, a) && Loaded(g, a, l, s, ready) && t in ready && g.Key(t) != []
    requires l.Has(t) && l.pend[t] != [] && Barred(g, t, l.base[t], Table(s, t), l.pend[t], ready)
    ensures var d, rest := l.pend[t][0], l.pend[t][1..];
            && |d.cols| == |d.vals| && Update(g, s, t, d) == Ok(s[t := Updated(g, t, Table(s, t), d)])
            && Loaded(g, a, l.(pend := l.pend[t := rest]), s[t := Updated(g, t, Table(s, t), d)], ready)
            && Barred(g, t, l.base[t], Updated(g, t, Table(s, t), d), rest, ready)
  {
    hide Loaded, SoundArchive, Intact, Barred, Hits, NotNullHolds;
    UpdateLoads(g, a, l, s, ready, t);
    var d, rest := l.pend[t][0], l.pend[t][1..];
    LoadedIsIntact(g, a, l.(pend := l.pend[t := rest]), s[t := Updated(g, t, Table(s, t), d)], ready);
  }

  lemma RestoredNotNull(g: Graph, a: Store, t: string, base: seq<Row>, last: seq<Row>, cur: seq<Row>, pend: seq<DeferredRef>)
    requires TableIn(g, a, t, base, last, cur, pend)
    ensures forall i :: 0 <= i < |cur| ==> NotNullHolds(g, t, cur[i])
  {
    forall i | 0 <= i < |cur| ensures NotNullHolds(g, t, cur[i]) {
      assert KeptRow(g, t, base[i], last[i], cur[i], pend);
    }
  }

  lemma SameRow(a: Row, b: Row)
    requires a.Keys == b.Keys && forall c :: At(a, c) == At(b, c)
    ensures a == b
  {
    forall c | c in a.Keys ensures a[c] == b[c] {
      assert At(a, c) == At(b, c);
    }
  }

  /** With nothing owed, the table holds exactly the rows it was to come to. */
  lemma NothingOwed(g: Graph, a: Store, t: string, base: seq<Row>, last: seq<Row>, cur: seq<Row>)
    requires TableIn(g, a, t, base, last, cur, [])
    ensures cur == last
  {
    forall k | 0 <= k < |cur| ensures cur[k] == last[k] {
      assert KeptRow(g, t, base[k], last[k], cur[k], []) && LastRow(g, t, base[k], last[k]);
      SameRow(cur[k], last[k]);
    }
  }

  /** Rows that come to other rows do not add up to the archived ones: their keys tell them apart. */
  lemma SameRowsExactlyWhenEach(g: Graph, a: Store, t: string, base: seq<Row>, last: seq<Row>)
    requires SoundArchive(g, a) && multiset(base) == multiset(Table(a, t)) && g.Key(t) != []
    requires |last| == |base| && forall k :: 0 <= k < |base| ==> LastRow(g, t, base[k], last[k])
    ensures multiset(last) == multiset(Table(a, t)) <==> last == base
  {
    if multiset(last) == multiset(Table(a, t)) {
      forall k | 0 <= k < |base| ensures last[k] == base[k] {
        assert last[k] in multiset(last) && last[k] in multiset(base);
        var i :| 0 <= i < |base| && base[i] == last[k];
        assert LastRow(g, t, base[k], last[k]);
        KeysDiffer(g, a, t, base, k);
      }
      assert last == base;
    }
  }
}
