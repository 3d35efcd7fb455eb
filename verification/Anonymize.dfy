/**
The planes of an erasure that keep rows: battery tables with anonymizers, and the audit
table. Column names are taken as already folded to one case.
*/
module Anonymize {

  datatype Value = Null | Text(s: string)

  type Row = map<string, Value>

  datatype Mode = Delete | Anonymize

  /** A resolved eraser: `value` is the identity bound to its match column; `also` are its further conditions. */
  datatype Eraser = Eraser(
    name: string, table: string, mode: Mode, column: string, value: string,
    also: seq<(string, string)>, scrub: seq<string>, tombstone: string)

  /** SQL `column = $n`: never true of NULL. */
  predicate Equals(row: Row, column: string, value: string) {
    column in row && row[column] == Text(value)
  }

  predicate Matches(e: Eraser, row: Row) {
    Equals(row, e.column, e.value) && forall w :: w in e.also ==> Equals(row, w.0, w.1)
  }

  /** The scrub columns and the match column itself. */
  function Scrubbed(e: Eraser): seq<string> {
    e.scrub + [e.column]
  }

  function Tombstone(e: Eraser): string {
    if e.tombstone == "" then "[erased]" else e.tombstone
  }

  predicate Hits(e: Eraser, row: Row, c: string) {
    Matches(e, row) && c in Scrubbed(e)
  }

  /** The first of the first i erasers that matches the row and scrubs the column; i when none does. */
  function FirstHit(es: seq<Eraser>, i: nat, row: Row, c: string): (k: nat)
    requires i <= |es|
    ensures k <= i && (k < i ==> Hits(es[k], row, c)) && forall j :: 0 <= j < k ==> !Hits(es[j], row, c)
  {
    if i == 0 then 0
    else
      var k := FirstHit(es, i - 1, row, c);
      if k < i - 1 || Hits(es[i - 1], row, c) then k else i
  }

  /** Each cell gets the tombstone of the first eraser that matched the row as it was and scrubs the column. */
  function Anonymized(es: seq<Eraser>, row: Row): Row {
    map c | c in row :: var k := FirstHit(es, |es|, row, c); if k < |es| then Text(Tombstone(es[k])) else row[c]
  }

  function AnonymizedRows(es: seq<Eraser>, rows: seq<Row>): seq<Row> {
    seq(|rows|, k requires 0 <= k < |rows| => Anonymized(es, rows[k]))
  }

  function Matched(e: Eraser, rows: seq<Row>): set<nat> {
    set k: nat | k < |rows| && Matches(e, rows[k])
  }

  // ---- The single UPDATE ---------------------------------------------------

  /** The erasers among the first i that scrub this column, in order. */
  function Scrubbers(es: seq<Eraser>, i: nat, c: string): seq<nat>
    requires i <= |es|
  {
    if i == 0 then [] else Scrubbers(es, i - 1, c) + if c in Scrubbed(es[i - 1]) then [i - 1] else []
  }

  lemma {:induction false} ScrubbersBelow(es: seq<Eraser>, i: nat, c: string)
    requires i <= |es|
    ensures forall p :: 0 <= p < |Scrubbers(es, i, c)| ==> Scrubbers(es, i, c)[p] < i
    ensures forall x :: x in Scrubbers(es, i, c) ==> x < i
  {
    if i > 0 { ScrubbersBelow(es, i - 1, c); }
  }

  predicate Indexes(es: seq<Eraser>, whens: seq<nat>) {
    forall k :: 0 <= k < |whens| ==> whens[k] < |es|
  }

  /** CASE WHEN m1 THEN t1 WHEN m2 THEN t2 … ELSE the column END. */
  function CaseValue(es: seq<Eraser>, whens: seq<nat>, row: Row, otherwise: Value): Value
    requires Indexes(es, whens)
  {
    if whens == [] then otherwise
    else if Matches(es[whens[0]], row) then Text(Tombstone(es[whens[0]]))
    else CaseValue(es, whens[1..], row, otherwise)
  }

  lemma {:induction false} CaseAppend(es: seq<Eraser>, whens: seq<nat>, last: nat, row: Row, otherwise: Value)
    requires Indexes(es, whens) && last < |es|
    ensures CaseValue(es, whens + [last], row, otherwise) == CaseValue(es, whens, row, CaseValue(es, [last], row, otherwise))
  {
    if whens != [] {
      assert (whens + [last])[0] == whens[0] && (whens + [last])[1..] == whens[1..] + [last];
      CaseAppend(es, whens[1..], last, row, otherwise);
    } else {
      assert whens + [last] == [last];
    }
  }

  lemma {:induction false} CaseConstant(es: seq<Eraser>, whens: seq<nat>, row: Row, a: Value, b: Value)
    requires Indexes(es, whens)
    requires exists k :: 0 <= k < |whens| && Matches(es[whens[k]], row)
    ensures CaseValue(es, whens, row, a) == CaseValue(es, whens, row, b)
  {
    if !Matches(es[whens[0]], row) {
      var k :| 0 <= k < |whens| && Matches(es[whens[k]], row);
      assert whens[1..][k - 1] == whens[k];
      CaseConstant(es, whens[1..], row, a, b);
    }
  }

  lemma {:induction false} ScrubbersHit(es: seq<Eraser>, i: nat, c: string, k: nat)
    requires k < i <= |es| && c in Scrubbed(es[k])
    ensures exists p :: 0 <= p < |Scrubbers(es, i, c)| && Scrubbers(es, i, c)[p] == k
  {
    var whens := Scrubbers(es, i, c);
    if k < i - 1 {
      ScrubbersHit(es, i - 1, c, k);
      var p :| 0 <= p < |Scrubbers(es, i - 1, c)| && Scrubbers(es, i - 1, c)[p] == k;
      assert whens[p] == k;
    } else {
      assert whens[|whens| - 1] == k;
    }
  }

  /** The CASE built from the erasers in order picks the first that hits. */
  lemma {:induction false} CaseIsFirstHit(es: seq<Eraser>, i: nat, row: Row, c: string, otherwise: Value)
    requires i <= |es| && Indexes(es, Scrubbers(es, i, c))
    ensures var k := FirstHit(es, i, row, c);
            CaseValue(es, Scrubbers(es, i, c), row, otherwise) == if k < i then Text(Tombstone(es[k])) else otherwise
  {
    if i > 0 {
      ScrubbersBelow(es, i - 1, c);
      CaseIsFirstHit(es, i - 1, row, c, otherwise);
      var whens, k := Scrubbers(es, i - 1, c), FirstHit(es, i - 1, row, c);
      if c in Scrubbed(es[i - 1]) {
        var e := CaseValue(es, [i - 1], row, otherwise);
        CaseAppend(es, whens, i - 1, row, otherwise);
        CaseIsFirstHit(es, i - 1, row, c, e);
        if k < i - 1 {
          ScrubbersHit(es, i - 1, c, k);
          CaseConstant(es, whens, row, e, otherwise);
        }
      } else {
        assert Scrubbers(es, i, c) == whens;
      }
    }
  }

  /** Counts first, then one UPDATE whose SET list is built eraser by eraser, column by column. */
  method AnonymizeTable(es: seq<Eraser>, rows: seq<Row>) returns (counts: seq<nat>, out: seq<Row>)
    ensures |counts| == |es| && forall i :: 0 <= i < |es| ==> counts[i] == |Matched(es[i], rows)|
    ensures out == AnonymizedRows(es, rows)
  {
    hide *;
    counts := [];
    var cols: seq<string>, whens: map<string, seq<nat>> := [], map[];
    NothingBuilt(es);
    for i := 0 to |es|
      invariant |counts| == i && forall j :: 0 <= j < i ==> counts[j] == |Matched(es[j], rows)|
      invariant Built(es, i, [], cols, whens)
    {
      counts := counts + [|Matched(es[i], rows)|];
      var names := Scrubbed(es[i]);
      assert names[..0] == [];
      for j := 0 to |names|
        invariant Built(es, i, names[..j], cols, whens)
      {
        var c := names[j];
        ColumnAdded(es, i, names, j, cols, whens);
        if c !in whens {
          cols, whens := cols + [c], whens[c := []];
        }
        if i !in whens[c] {
          whens := whens[c := whens[c] + [i]];
        }
      }
      assert names[..|names|] == names;
      EraserBuilt(es, i, cols, whens);
    }
    out := seq(|rows|, k requires 0 <= k < |rows| => Updated(es, whens, rows[k]));
    UpdatedAll(es, whens, cols, rows);
  }

  /** After i erasers and, of the next one, these column names. */
  ghost predicate Built(es: seq<Eraser>, i: nat, names: seq<string>, cols: seq<string>, whens: map<string, seq<nat>>) {
    && i <= |es| && (forall c :: c in cols <==> c in whens)
    && forall c :: (if c in whens then whens[c] else []) == Expected(es, i, names, c)
  }

  ghost function Expected(es: seq<Eraser>, i: nat, names: seq<string>, c: string): seq<nat>
    requires i <= |es|
  {
    Scrubbers(es, i, c) + if c in names then [i] else []
  }

  lemma NothingBuilt(es: seq<Eraser>)
    ensures Built(es, 0, [], [], map[])
  {
  }

  lemma ColumnAdded(es: seq<Eraser>, i: nat, names: seq<string>, j: nat, cols: seq<string>, whens: map<string, seq<nat>>)
    requires j < |names| && Built(es, i, names[..j], cols, whens)
    ensures var c := names[j];
            var cols1, whens1 := if c in whens then cols else cols + [c], if c in whens then whens else whens[c := []];
            Built(es, i, names[..j + 1], cols1, if i in whens1[c] then whens1 else whens1[c := whens1[c] + [i]])
  {
    hide Expected;
    var c := names[j];
    ExpectedGrows(es, i, names, j);
    assert (if c in whens then whens[c] else []) == Expected(es, i, names[..j], c);
  }

  lemma ExpectedGrows(es: seq<Eraser>, i: nat, names: seq<string>, j: nat)
    requires i <= |es| && j < |names|
    ensures forall x :: x != names[j] ==> Expected(es, i, names[..j + 1], x) == Expected(es, i, names[..j], x)
    ensures var before := Expected(es, i, names[..j], names[j]);
            Expected(es, i, names[..j + 1], names[j]) == if i in before then before else before + [i]
  {
    var c := names[j];
    assert names[..j + 1] == names[..j] + [c];
    forall x ensures i !in Scrubbers(es, i, x) {
      ScrubbersBelow(es, i, x);
    }
    assert i in Expected(es, i, names[..j], c) <==> c in names[..j];
    hide Scrubbers;
  }

  lemma EraserBuilt(es: seq<Eraser>, i: nat, cols: seq<string>, whens: map<string, seq<nat>>)
    requires i < |es| && Built(es, i, Scrubbed(es[i]), cols, whens)
    ensures Built(es, i + 1, [], cols, whens)
  {
    forall c ensures Expected(es, i + 1, [], c) == Expected(es, i, Scrubbed(es[i]), c) {
      assert Scrubbers(es, i + 1, c) == Scrubbers(es, i, c) + if c in Scrubbed(es[i]) then [i] else [];
    }
  }

  /** UPDATE … SET each column to its CASE WHERE any eraser matches; every match reads the row as it was. */
  function Updated(es: seq<Eraser>, whens: map<string, seq<nat>>, row: Row): Row {
    if exists i :: 0 <= i < |es| && Matches(es[i], row) then
      map c | c in row :: UpdatedCell(es, whens, row, c)
    else row
  }

  lemma UpdatedRow(es: seq<Eraser>, whens: map<string, seq<nat>>, cols: seq<string>, row: Row)
    requires Built(es, |es|, [], cols, whens)
    ensures Updated(es, whens, row) == Anonymized(es, row)
  {
    hide *;
    AnonymizedKeys(es, row);
    if exists i :: 0 <= i < |es| && Matches(es[i], row) {
      forall c | c in row ensures UpdatedCell(es, whens, row, c) == Anonymized(es, row)[c] {
        CellUpdated(es, whens, cols, row, c);
      }
      WhereHolds(es, whens, row, Anonymized(es, row));
    } else {
      NothingHits(es, row);
      WhereFails(es, whens, row);
    }
  }

  lemma AnonymizedKeys(es: seq<Eraser>, row: Row)
    ensures Anonymized(es, row).Keys == row.Keys
  {
    hide FirstHit;
  }

  lemma WhereHolds(es: seq<Eraser>, whens: map<string, seq<nat>>, row: Row, out: Row)
    requires (exists i :: 0 <= i < |es| && Matches(es[i], row)) && out.Keys == row.Keys
    requires forall c :: c in row ==> UpdatedCell(es, whens, row, c) == out[c]
    ensures Updated(es, whens, row) == out
  {
    hide Matches, UpdatedCell;
  }

  lemma WhereFails(es: seq<Eraser>, whens: map<string, seq<nat>>, row: Row)
    requires forall i :: 0 <= i < |es| ==> !Matches(es[i], row)
    ensures Updated(es, whens, row) == row
  {
    hide Matches, UpdatedCell;
  }

  function UpdatedCell(es: seq<Eraser>, whens: map<string, seq<nat>>, row: Row, c: string): Value
    requires c in row
  {
    if c in whens && Indexes(es, whens[c]) then CaseValue(es, whens[c], row, row[c]) else row[c]
  }

  lemma CellUpdated(es: seq<Eraser>, whens: map<string, seq<nat>>, cols: seq<string>, row: Row, c: string)
    requires Built(es, |es|, [], cols, whens) && c in row
    ensures UpdatedCell(es, whens, row, c) == Anonymized(es, row)[c]
  {
    ScrubbersBelow(es, |es|, c);
    CaseIsFirstHit(es, |es|, row, c, row[c]);
    assert (if c in whens then whens[c] else []) == Expected(es, |es|, [], c);
    assert Scrubbers(es, |es|, c) + [] == Scrubbers(es, |es|, c);
    hide Built, Matches, Scrubbers;
  }

  lemma UpdatedAll(es: seq<Eraser>, whens: map<string, seq<nat>>, cols: seq<string>, rows: seq<Row>)
    requires Built(es, |es|, [], cols, whens)
    ensures seq(|rows|, k requires 0 <= k < |rows| => Updated(es, whens, rows[k])) == AnonymizedRows(es, rows)
  {
    forall k | 0 <= k < |rows| ensures Updated(es, whens, rows[k]) == Anonymized(es, rows[k]) {
      UpdatedRow(es, whens, cols, rows[k]);
    }
  }

  // ---- A second erasure ----------------------------------------------------

  /** No eraser's tombstone is a value some eraser looks for. */
  ghost predicate TombstonesApart(es: seq<Eraser>) {
    forall a, b :: a in es && b in es ==> Tombstone(a) != b.value && forall w :: w in b.also ==> Tombstone(a) != w.1
  }

  /** An anonymized cell is as it was, or a tombstone. */
  lemma CellKeptOrTombstone(es: seq<Eraser>, row: Row, c: string)
    requires c in row
    ensures Anonymized(es, row)[c] == row[c] || exists e :: e in es && Anonymized(es, row)[c] == Text(Tombstone(e))
  {
    var k := FirstHit(es, |es|, row, c);
    if k < |es| { assert es[k] in es; }
  }

  /** What matches afterwards matched before, and had its match column kept. */
  lemma NoNewMatch(es: seq<Eraser>, all: seq<Eraser>, e: Eraser, row: Row)
    requires TombstonesApart(all) && e in all && (forall x :: x in es ==> x in all) && Matches(e, Anonymized(es, row))
    ensures Matches(e, row) && e !in es
  {
    var after := Anonymized(es, row);
    CellKeptOrTombstone(es, row, e.column);
    assert row[e.column] == after[e.column];
    forall w | w in e.also ensures Equals(row, w.0, w.1) {
      CellKeptOrTombstone(es, row, w.0);
    }
    MatchColumnScrubbed(es, e, row);
  }

  lemma MatchColumnScrubbed(es: seq<Eraser>, e: Eraser, row: Row)
    requires Matches(e, row)
    ensures e in es ==> exists t :: t in es && Anonymized(es, row)[e.column] == Text(Tombstone(t))
  {
    if e in es {
      var i :| 0 <= i < |es| && es[i] == e;
      assert Hits(es[i], row, e.column);
      var k := FirstHit(es, |es|, row, e.column);
      assert es[k] in es;
    }
  }

  lemma AnonymizedMatchesNothing(es: seq<Eraser>, rows: seq<Row>)
    requires TombstonesApart(es)
    ensures forall e :: e in es ==> Matched(e, AnonymizedRows(es, rows)) == {}
    ensures AnonymizedRows(es, AnonymizedRows(es, rows)) == AnonymizedRows(es, rows)
  {
    forall e, k: nat | e in es && k < |rows| ensures !Matches(e, AnonymizedRows(es, rows)[k]) {
      if Matches(e, Anonymized(es, rows[k])) { NoNewMatch(es, es, e, rows[k]); }
    }
    UnmatchedStays(es, AnonymizedRows(es, rows));
  }

  lemma UnmatchedStays(es: seq<Eraser>, rows: seq<Row>)
    requires forall e, k: nat :: e in es && k < |rows| ==> !Matches(e, rows[k])
    ensures AnonymizedRows(es, rows) == rows && forall e :: e in es ==> Matched(e, rows) == {}
  {
    hide Matches, FirstHit;
    forall k | 0 <= k < |rows| ensures Anonymized(es, rows[k]) == rows[k] {
      assert forall i :: 0 <= i < |es| ==> es[i] in es;
      NothingHits(es, rows[k]);
    }
  }

  lemma NothingHits(es: seq<Eraser>, row: Row)
    requires forall i :: 0 <= i < |es| ==> !Matches(es[i], row)
    ensures Anonymized(es, row) == row
  {
  }

  // ---- A tombstone that is looked for ----------------------------------------

  /** The columns the eraser looks in, and the value it looks for in each. */
  function Looks(e: Eraser): seq<(string, string)> {
    [(e.column, e.value)] + e.also
  }

  /** The cell holds the value and no eraser of the table overwrites it. */
  predicate KeptAs(es: seq<Eraser>, row: Row, c: string, v: string) {
    Equals(row, c, v) && FirstHit(es, |es|, row, c) == |es|
  }

  /** The cell is overwritten with a tombstone that is the value. */
  predicate WrittenAs(es: seq<Eraser>, row: Row, c: string, v: string) {
    var k := FirstHit(es, |es|, row, c);
    c in row && k < |es| && Tombstone(es[k]) == v
  }

  /** Everything the eraser looks for in the row is kept there or written there as a tombstone, and something is written. */
  ghost predicate FindsTombstone(es: seq<Eraser>, e: Eraser, row: Row) {
    && (forall w :: w in Looks(e) ==> KeptAs(es, row, w.0, w.1) || WrittenAs(es, row, w.0, w.1))
    && (exists w :: w in Looks(e) && WrittenAs(es, row, w.0, w.1))
  }

  lemma LooksIsMatch(e: Eraser, row: Row)
    ensures Matches(e, row) <==> forall w :: w in Looks(e) ==> Equals(row, w.0, w.1)
  {
    assert Looks(e)[0] == (e.column, e.value);
    assert forall w :: w in Looks(e) <==> w == Looks(e)[0] || w in e.also;
  }

  lemma CellAfter(es: seq<Eraser>, row: Row, c: string, v: string)
    ensures Equals(Anonymized(es, row), c, v) <==> KeptAs(es, row, c, v) || WrittenAs(es, row, c, v)
  {
  }

  /** A row matches an eraser of its table after the update exactly when the eraser finds a tombstone in it. */
  lemma MatchesAfter(es: seq<Eraser>, e: Eraser, row: Row)
    requires e in es
    ensures Matches(e, Anonymized(es, row)) <==> FindsTombstone(es, e, row)
  {
    LooksIsMatch(e, Anonymized(es, row));
    forall w | w in Looks(e)
      ensures Equals(Anonymized(es, row), w.0, w.1) <==> KeptAs(es, row, w.0, w.1) || WrittenAs(es, row, w.0, w.1)
    {
      CellAfter(es, row, w.0, w.1);
    }
    assert Looks(e)[0] == (e.column, e.value);
    LooksIsMatch(e, row);
    if Matches(e, row) { TookItsColumn(es, e, row); }
  }

  /** A row an eraser matched has its match column overwritten. */
  lemma TookItsColumn(es: seq<Eraser>, e: Eraser, row: Row)
    requires e in es && Matches(e, row)
    ensures !KeptAs(es, row, e.column, e.value)
  {
    var i :| 0 <= i < |es| && es[i] == e;
    assert Hits(es[i], row, e.column);
  }

  /**
  For one table, a second update affects a row exactly when an eraser of the table
  finds a tombstone in a row of the first: a tombstone is a value it looks for.
  */
  lemma SecondUpdateAffects(es: seq<Eraser>, rows: seq<Row>)
    ensures (exists e :: e in es && Matched(e, AnonymizedRows(es, rows)) != {}) <==>
            (exists e, k: nat :: e in es && k < |rows| && FindsTombstone(es, e, rows[k]))
  {
    hide FindsTombstone, Matches, Anonymized;
    var after := AnonymizedRows(es, rows);
    forall e, k: nat | e in es && k < |rows| ensures k in Matched(e, after) <==> FindsTombstone(es, e, rows[k]) {
      MatchesAfter(es, e, rows[k]);
    }
    if e :| e in es && Matched(e, after) != {} {
      var k :| k in Matched(e, after);
      assert FindsTombstone(es, e, rows[k]);
    }
    if e, k: nat :| e in es && k < |rows| && FindsTombstone(es, e, rows[k]) {
      assert k in Matched(e, after);
    }
  }

  // ---- Every battery table -------------------------------------------------

  type Tables = map<string, seq<Row>>

  function Survivors(e: Eraser, rows: seq<Row>): (r: seq<Row>)
    ensures forall x :: x in r <==> x in rows && !Matches(e, x)
  {
    if rows == [] then [] else
      assert rows == [rows[0]] + rows[1..];
      (if Matches(e, rows[0]) then [] else [rows[0]]) + Survivors(e, rows[1..])
  }

  predicate DeletesFrom(e: Eraser, t: string) {
    e.mode == Delete && e.table == t
  }

  /** What the first n erasers' deletes leave of table t. */
  function AfterDeletes(es: seq<Eraser>, n: nat, t: string, rows: seq<Row>): seq<Row>
    requires n <= |es|
  {
    if n == 0 then rows
    else
      var r := AfterDeletes(es, n - 1, t, rows);
      if DeletesFrom(es[n - 1], t) then Survivors(es[n - 1], r) else r
  }

  /** The anonymizers of t among the first n erasers, in order. */
  function Group(es: seq<Eraser>, n: nat, t: string): (g: seq<Eraser>)
    requires n <= |es|
    ensures forall e :: e in g ==> e in es && e.mode == Anonymize && e.table == t
  {
    if n == 0 then [] else
      assert es[n - 1] in es;
      Group(es, n - 1, t) + if es[n - 1].mode == Anonymize && es[n - 1].table == t then [es[n - 1]] else []
  }

  /** Deletes first, then each table's anonymizers together on what is left. */
  function ErasedRows(es: seq<Eraser>, t: string, rows: seq<Row>): seq<Row> {
    AnonymizedRows(Group(es, |es|, t), AfterDeletes(es, |es|, t, rows))
  }

  function ErasedTables(es: seq<Eraser>, tables: Tables): Tables {
    map t | t in tables :: ErasedRows(es, t, tables[t])
  }

  /** The rows eraser i reports. */
  function Affected(es: seq<Eraser>, tables: Tables, i: nat): nat
    requires i < |es| && es[i].table in tables
  {
    var t := es[i].table;
    |Matched(es[i], AfterDeletes(es, if es[i].mode == Delete then i else |es|, t, tables[t]))|
  }

  /** Where the anonymizers of t sit among the first n erasers. */
  function Places(es: seq<Eraser>, n: nat, t: string): seq<nat>
    requires n <= |es|
  {
    if n == 0 then [] else Places(es, n - 1, t) + if es[n - 1].mode == Anonymize && es[n - 1].table == t then [n - 1] else []
  }

  /** The places of a table's anonymizers among the first n erasers, each once. */
  ghost predicate PlacesOf(es: seq<Eraser>, n: nat, t: string, p: seq<nat>)
    requires n <= |es|
  {
    PlacedAt(es, n, t, Group(es, n, t), p)
  }

  lemma {:induction false} PlacesFacts(es: seq<Eraser>, n: nat, t: string)
    requires n <= |es|
    ensures PlacesOf(es, n, t, Places(es, n, t))
  {
    hide PlacesOf;
    if n == 0 { NoPlaces(es, t); }
    if n > 0 {
      PlacesFacts(es, n - 1, t);
      PlacesStep(es, n - 1, t);
      PlacesOfGrows(es, n - 1, t, Places(es, n - 1, t));
    }
  }

  lemma NoPlaces(es: seq<Eraser>, t: string)
    ensures PlacesOf(es, 0, t, Places(es, 0, t))
  {
  }

  /** Places of the rows of `g` among the first `n` erasers. */
  ghost predicate PlacedAt(es: seq<Eraser>, n: nat, t: string, g: seq<Eraser>, p: seq<nat>)
    requires n <= |es|
  {
    && |p| == |g|
    && (forall k :: 0 <= k < |p| ==> p[k] < n && es[p[k]] == g[k] && es[p[k]].mode == Anonymize && es[p[k]].table == t)
    && forall j, k :: 0 <= j < k < |p| ==> p[j] != p[k]
  }

  lemma PlacedAtGrows(es: seq<Eraser>, i: nat, t: string, g: seq<Eraser>, p: seq<nat>)
    requires i < |es| && PlacedAt(es, i, t, g, p)
    ensures PlacedAt(es, i + 1, t, g, p)
    ensures es[i].mode == Anonymize && es[i].table == t ==> PlacedAt(es, i + 1, t, g + [es[i]], p + [i])
  {
  }

  lemma PlacesOfGrows(es: seq<Eraser>, i: nat, t: string, p: seq<nat>)
    requires i < |es| && PlacesOf(es, i, t, p)
    ensures PlacesOf(es, i + 1, t, if es[i].mode == Anonymize && es[i].table == t then p + [i] else p)
  {
    hide *;
    PlacesOfIs(es, i, t, p);
    PlacedAtGrows(es, i, t, Group(es, i, t), p);
    GroupStep(es, i, t);
    PlacesOfIs(es, i + 1, t, if es[i].mode == Anonymize && es[i].table == t then p + [i] else p);
  }

  lemma PlacesOfIs(es: seq<Eraser>, n: nat, t: string, p: seq<nat>)
    requires n <= |es|
    ensures PlacesOf(es, n, t, p) <==> PlacedAt(es, n, t, Group(es, n, t), p)
  {
  }

  lemma GroupStep(es: seq<Eraser>, i: nat, t: string)
    requires i < |es|
    ensures Group(es, i + 1, t) == if es[i].mode == Anonymize && es[i].table == t then Group(es, i, t) + [es[i]] else Group(es, i, t)
  {
    assert Group(es, i, t) + [] == Group(es, i, t);
  }

  lemma PlacesStep(es: seq<Eraser>, i: nat, t: string)
    requires i < |es|
    ensures Places(es, i + 1, t) == if es[i].mode == Anonymize && es[i].table == t then Places(es, i, t) + [i] else Places(es, i, t)
  {
  }

  lemma {:induction false} PlacesComplete(es: seq<Eraser>, n: nat, i: nat)
    requires i < n <= |es| && es[i].mode == Anonymize
    ensures i in Places(es, n, es[i].table)
  {
    hide *;
    PlacesStep(es, n - 1, es[i].table);
    if i < n - 1 {
      PlacesComplete(es, n - 1, i);
    }
  }

  /** The anonymizers by table, in the order first met; one with nothing to scrub refuses them all. */
  method GroupTables(es: seq<Eraser>) returns (ok: bool, anonTables: seq<string>, anon: map<string, seq<nat>>)
    ensures ok <==> forall e :: e in es && e.mode == Anonymize ==> e.scrub != []
    ensures ok ==> Grouped(es, |es|, anonTables, anon)
  {
    hide *;
    anonTables, anon := [], map[];
    NothingGrouped(es);
    for i := 0 to |es|
      invariant forall j :: 0 <= j < i && es[j].mode == Anonymize ==> es[j].scrub != []
      invariant Grouped(es, i, anonTables, anon)
    {
      EraserGrouped(es, i, anonTables, anon);
      if es[i].mode == Anonymize {
        if es[i].scrub == [] {
          assert es[i] in es;
          return false, anonTables, anon;
        }
        var t := es[i].table;
        if t !in anon {
          anonTables, anon := anonTables + [t], anon[t := []];
        }
        anon := anon[t := anon[t] + [i]];
      }
    }
    return true, anonTables, anon;
  }

  lemma EraserGrouped(es: seq<Eraser>, i: nat, anonTables: seq<string>, anon: map<string, seq<nat>>)
    requires i < |es| && Grouped(es, i, anonTables, anon)
    ensures var t := es[i].table;
            var tables1, anon1 := if t in anon then anonTables else anonTables + [t], if t in anon then anon else anon[t := []];
            if es[i].mode == Anonymize then Grouped(es, i + 1, tables1, anon1[t := anon1[t] + [i]]) else Grouped(es, i + 1, anonTables, anon)
  {
    hide Listed, AllPlaces;
    var t := es[i].table;
    assert t !in anon ==> anon[t := []][t := [] + [i]] == anon[t := [] + [i]];
    if es[i].mode == Anonymize {
      ListedGrows(anonTables, anon, es[i].table, (if es[i].table in anon then anon[es[i].table] else []) + [i]);
    }
    PlacesGrow(es, i, anon);
  }

  lemma ListedGrows(anonTables: seq<string>, anon: map<string, seq<nat>>, t: string, v: seq<nat>)
    requires Listed(anonTables, anon)
    ensures Listed(if t in anon then anonTables else anonTables + [t], anon[t := v])
  {
    if t !in anon {
      var next := anonTables + [t];
      forall k | 0 <= k < |next| ensures next[k] in anon[t := v] && next[k] !in next[..k] {
        assert next[..k] == anonTables[..k];
        if k == |anonTables| {
          assert anonTables[..k] == anonTables;
          assert forall j :: 0 <= j < k ==> anonTables[j] != t;
        }
      }
      forall x | x in anon[t := v] ensures x in next {
        assert x in anon ==> x in anonTables;
        assert next[|anonTables|] == t;
      }
    }
  }

  lemma PlacesGrow(es: seq<Eraser>, i: nat, anon: map<string, seq<nat>>)
    requires i < |es| && AllPlaces(es, i, anon)
    ensures var t := es[i].table;
            AllPlaces(es, i + 1, if es[i].mode == Anonymize then anon[t := (if t in anon then anon[t] else []) + [i]] else anon)
  {
    hide Places;
    var t := es[i].table;
    var next := if es[i].mode == Anonymize then anon[t := (if t in anon then anon[t] else []) + [i]] else anon;
    forall x ensures (if x in next then next[x] else []) == Places(es, i + 1, x) && (x in next ==> next[x] != []) {
      PlacesStep(es, i, x);
      assert (if x in anon then anon[x] else []) == Places(es, i, x) && (x in anon ==> anon[x] != []);
    }
  }

  lemma NothingGrouped(es: seq<Eraser>)
    ensures Grouped(es, 0, [], map[])
  {
  }

  class BatteryPlane {
    var tables: Tables

    constructor (tables: Tables)
      ensures this.tables == tables
    {
      this.tables := tables;
    }

    /** Refuses an anonymizer with nothing to scrub before writing anything. */
    method Erase(es: seq<Eraser>) returns (ok: bool, results: seq<nat>)
      requires forall e :: e in es ==> e.table in tables
      modifies this
      ensures ok <==> forall e :: e in es && e.mode == Anonymize ==> e.scrub != []
      ensures tables == if ok then ErasedTables(es, old(tables)) else old(tables)
      ensures ok ==> |results| == |es| && forall i :: 0 <= i < |es| ==> results[i] == Affected(es, old(tables), i)
    {
      var anonTables, anon;
      ok, anonTables, anon := GroupTables(es);
      if !ok {
        return false, [];
      }
      results := DeleteRows(es);
      results := AnonymizeRows(es, anonTables, anon, results, old(tables));
      AllReported(es, anonTables, anon, old(tables), results);
    }

    method DeleteRows(es: seq<Eraser>) returns (results: seq<nat>)
      requires forall e :: e in es ==> e.table in tables
      modifies this
      ensures Deleted(es, |es|, old(tables), tables)
      ensures Reported(es, old(tables), results, [])
    {
      results := seq(|es|, _ => 0);
      NothingDeleted(es, tables);
      for i := 0 to |es|
        invariant Deleted(es, i, old(tables), tables)
        invariant |results| == |es| && forall j :: 0 <= j < i && es[j].mode == Delete ==> results[j] == Affected(es, old(tables), j)
      {
        var e := es[i];
        assert e in es;
        if e.mode == Delete {
          results := results[i := |Matched(e, tables[e.table])|];
          tables := tables[e.table := Survivors(e, tables[e.table])];
        }
      }
    }

    method AnonymizeRows(es: seq<Eraser>, anonTables: seq<string>, anon: map<string, seq<nat>>, results0: seq<nat>, ghost before: Tables)
      returns (results: seq<nat>)
      requires (forall e :: e in es ==> e.table in before) && Grouped(es, |es|, anonTables, anon)
      requires Deleted(es, |es|, before, tables) && Reported(es, before, results0, [])
      modifies this
      ensures tables == ErasedTables(es, before) && Reported(es, before, results, anonTables)
    {
      hide *;
      results := results0;
      NothingWritten(es, before, tables);
      assert anonTables[..0] == [];
      for k := 0 to |anonTables|
        invariant Written(es, before, tables, anonTables[..k]) && Reported(es, before, results, anonTables[..k])
      {
        var t := anonTables[k];
        TableGrouped(es, anonTables, anon, before, tables, k);
        var places := anon[t];
        PlacesFit(es, t, places);
        var group := seq(|places|, j requires 0 <= j < |places| => es[places[j]]);
        PlacesAreGroup(es, t, places, group);
        var counts, rows := AnonymizeTable(group, tables[t]);
        ghost var results1 := results;
        ReportFits(es, before, results, anonTables[..k]);
        results := Report(results, places, counts);
        TableWritten(es, anonTables, before, tables, rows, k);
        assert anonTables[..k + 1] == anonTables[..k] + [t];
        CountsReported(es, before, anonTables[..k], t, counts, results1, results);
        tables := tables[t := rows];
      }
      assert anonTables[..|anonTables|] == anonTables;
      AllWritten(es, anonTables, anon, before, tables);
    }
  }

  lemma ReportFits(es: seq<Eraser>, before: Tables, results: seq<nat>, done: seq<string>)
    requires (forall e :: e in es ==> e.table in before) && Reported(es, before, results, done)
    ensures |results| == |es|
  {
  }

  lemma PlacesFit(es: seq<Eraser>, t: string, p: seq<nat>)
    requires p == Places(es, |es|, t)
    ensures PlacesOf(es, |es|, t, p) && (forall k :: 0 <= k < |p| ==> p[k] < |es|) && forall j, k :: 0 <= j < k < |p| ==> p[j] != p[k]
  {
    PlacesFacts(es, |es|, t);
  }

  /** Each count at its eraser's place. */
  method Report(results0: seq<nat>, places: seq<nat>, counts: seq<nat>) returns (results: seq<nat>)
    requires |counts| == |places| && (forall k :: 0 <= k < |places| ==> places[k] < |results0|)
    requires forall j, k :: 0 <= j < k < |places| ==> places[j] != places[k]
    ensures |results| == |results0| && (forall k :: 0 <= k < |places| ==> results[places[k]] == counts[k])
    ensures forall i :: 0 <= i < |results0| && i !in places ==> results[i] == results0[i]
  {
    results := results0;
    for j := 0 to |places|
      invariant |results| == |results0| && (forall k :: 0 <= k < j ==> results[places[k]] == counts[k])
      invariant forall i :: 0 <= i < |results0| && i !in places ==> results[i] == results0[i]
    {
      results := results[places[j] := counts[j]];
    }
  }

  /** Delete counts, and anonymizer counts of the tables listed. */
  ghost predicate Reported(es: seq<Eraser>, before: Tables, results: seq<nat>, done: seq<string>)
    requires forall e :: e in es ==> e.table in before
  {
    && |results| == |es|
    && forall i :: 0 <= i < |es| && (es[i].mode == Delete || es[i].table in done) ==> results[i] == Affected(es, before, i)
  }

  /** The anonymizers of the first n erasers, by table. */
  ghost predicate Grouped(es: seq<Eraser>, n: nat, anonTables: seq<string>, anon: map<string, seq<nat>>) {
    n <= |es| && Listed(anonTables, anon) && AllPlaces(es, n, anon)
  }

  /** Each table of the map is listed once. */
  ghost predicate Listed(anonTables: seq<string>, anon: map<string, seq<nat>>) {
    && (forall k :: 0 <= k < |anonTables| ==> anonTables[k] in anon && anonTables[k] !in anonTables[..k])
    && forall t :: t in anon ==> t in anonTables
  }

  ghost predicate AllPlaces(es: seq<Eraser>, n: nat, anon: map<string, seq<nat>>)
    requires n <= |es|
  {
    forall t :: (if t in anon then anon[t] else []) == Places(es, n, t) && (t in anon ==> anon[t] != [])
  }

  ghost predicate Deleted(es: seq<Eraser>, n: nat, before: Tables, tables: Tables) {
    && n <= |es| && tables.Keys == before.Keys
    && forall t :: t in before ==> tables[t] == AfterDeletes(es, n, t, before[t])
  }

  lemma NothingDeleted(es: seq<Eraser>, tables: Tables)
    ensures Deleted(es, 0, tables, tables)
  {
  }

  /** The tables listed are as erased, the others as the deletes left them. */
  ghost predicate Written(es: seq<Eraser>, before: Tables, tables: Tables, done: seq<string>) {
    && tables.Keys == before.Keys
    && forall t :: t in before ==> tables[t] == if t in done then ErasedRows(es, t, before[t]) else AfterDeletes(es, |es|, t, before[t])
  }

  lemma NothingWritten(es: seq<Eraser>, before: Tables, tables: Tables)
    requires Deleted(es, |es|, before, tables)
    ensures Written(es, before, tables, [])
  {
  }

  lemma TableGrouped(es: seq<Eraser>, anonTables: seq<string>, anon: map<string, seq<nat>>, before: Tables, tables: Tables, k: nat)
    requires (forall e :: e in es ==> e.table in before) && Grouped(es, |es|, anonTables, anon) && k < |anonTables|
    requires Written(es, before, tables, anonTables[..k])
    ensures var t := anonTables[k];
            && t in anon && anon[t] == Places(es, |es|, t) && t in before && t in tables
            && tables[t] == AfterDeletes(es, |es|, t, before[t])
  {
    hide *;
    var t := anonTables[k];
    ListedOnce(es, anonTables, anon, k);
    TableHasAnonymizer(es, before, t);
    NotYetWritten(es, before, tables, anonTables[..k], t);
  }

  lemma ListedOnce(es: seq<Eraser>, anonTables: seq<string>, anon: map<string, seq<nat>>, k: nat)
    requires Grouped(es, |es|, anonTables, anon) && k < |anonTables|
    ensures var t := anonTables[k];
            t in anon && anon[t] == Places(es, |es|, t) && anon[t] != [] && t !in anonTables[..k]
  {
    hide Places;
    var t := anonTables[k];
    assert (if t in anon then anon[t] else []) == Places(es, |es|, t);
  }

  lemma TableHasAnonymizer(es: seq<Eraser>, before: Tables, t: string)
    requires Places(es, |es|, t) != [] && forall e :: e in es ==> e.table in before
    ensures t in before
  {
    PlacesFacts(es, |es|, t);
    var p := Places(es, |es|, t);
    hide Places, Group;
    assert es[p[0]] in es;
  }

  lemma NotYetWritten(es: seq<Eraser>, before: Tables, tables: Tables, done: seq<string>, t: string)
    requires Written(es, before, tables, done) && t in before && t !in done
    ensures t in tables && tables[t] == AfterDeletes(es, |es|, t, before[t])
  {
    hide AfterDeletes, ErasedRows;
  }

  lemma PlacesAreGroup(es: seq<Eraser>, t: string, p: seq<nat>, group: seq<Eraser>)
    requires PlacesOf(es, |es|, t, p) && |group| == |p| && forall j :: 0 <= j < |group| ==> p[j] < |es| && group[j] == es[p[j]]
    ensures group == Group(es, |es|, t)
  {
    hide Group;
  }

  lemma TableWritten(es: seq<Eraser>, anonTables: seq<string>, before: Tables, tables: Tables, rows: seq<Row>, k: nat)
    requires k < |anonTables| && Written(es, before, tables, anonTables[..k]) && anonTables[k] in before
    requires rows == AnonymizedRows(Group(es, |es|, anonTables[k]), AfterDeletes(es, |es|, anonTables[k], before[anonTables[k]]))
    ensures Written(es, before, tables[anonTables[k] := rows], anonTables[..k + 1])
  {
    var x := anonTables[k];
    assert rows == ErasedRows(es, x, before[x]);
    hide ErasedRows, AfterDeletes;
    InOneMore(anonTables, k);
    forall t | t in before
      ensures tables[x := rows][t] == if t in anonTables[..k + 1] then ErasedRows(es, t, before[t]) else AfterDeletes(es, |es|, t, before[t])
    {
    }
  }

  lemma InOneMore(s: seq<string>, k: nat)
    requires k < |s|
    ensures forall x :: x in s[..k + 1] <==> x in s[..k] || x == s[k]
  {
    assert s[..k + 1] == s[..k] + [s[k]];
  }

  /** What the table's update counted for the anonymizer at `i`. */
  lemma CountReported(es: seq<Eraser>, before: Tables, t: string, places: seq<nat>, counts: seq<nat>, results: seq<nat>, i: nat)
    requires i < |es| == |results| && es[i].mode == Anonymize && es[i].table == t && t in before && places == Places(es, |es|, t)
    requires PlacesOf(es, |es|, t, places) && |counts| == |places| && (forall k :: 0 <= k < |places| ==> results[places[k]] == counts[k])
    requires forall k :: 0 <= k < |counts| ==> counts[k] == |Matched(Group(es, |es|, t)[k], AfterDeletes(es, |es|, t, before[t]))|
    ensures results[i] == Affected(es, before, i)
  {
    hide Places, Group, AfterDeletes, Matched;
    PlacesComplete(es, |es|, i);
    var k :| 0 <= k < |places| && places[k] == i;
  }

  lemma CountsReported(es: seq<Eraser>, before: Tables, done: seq<string>, t: string, counts: seq<nat>, results0: seq<nat>, results: seq<nat>)
    requires (forall e :: e in es ==> e.table in before) && Reported(es, before, results0, done) && t in before && |results| == |es|
    requires var places := Places(es, |es|, t);
             && PlacesOf(es, |es|, t, places) && |counts| == |places| && (forall k :: 0 <= k < |places| ==> results[places[k]] == counts[k])
             && (forall i :: 0 <= i < |es| && i !in places ==> results[i] == results0[i])
    requires forall k :: 0 <= k < |counts| ==> counts[k] == |Matched(Group(es, |es|, t)[k], AfterDeletes(es, |es|, t, before[t]))|
    ensures Reported(es, before, results, done + [t])
  {
    var places := Places(es, |es|, t);
    assert forall i :: 0 <= i < |es| && i in places ==> es[i].mode == Anonymize && es[i].table == t;
    hide Places, Group, AfterDeletes, Matched, PlacesOf, Affected;
    forall i | 0 <= i < |es| && (es[i].mode == Delete || es[i].table in done + [t]) ensures results[i] == Affected(es, before, i) {
      assert es[i] in es;
      if es[i].mode == Anonymize && es[i].table == t {
        CountReported(es, before, t, places, counts, results, i);
      }
    }
  }

  /** A table without anonymizers is as the deletes left it. */
  lemma AllWritten(es: seq<Eraser>, anonTables: seq<string>, anon: map<string, seq<nat>>, before: Tables, tables: Tables)
    requires Grouped(es, |es|, anonTables, anon) && Written(es, before, tables, anonTables)
    ensures tables == ErasedTables(es, before)
  {
    forall t | t in before ensures tables[t] == ErasedRows(es, t, before[t]) {
      UnlistedIsEmpty(es, anonTables, anon, t);
      NoErasers(AfterDeletes(es, |es|, t, before[t]));
    }
    hide ErasedRows, AfterDeletes, Grouped;
  }

  lemma UnlistedIsEmpty(es: seq<Eraser>, anonTables: seq<string>, anon: map<string, seq<nat>>, t: string)
    requires Grouped(es, |es|, anonTables, anon)
    ensures t !in anonTables ==> Group(es, |es|, t) == []
  {
    hide Places, Group;
    PlacesFacts(es, |es|, t);
    assert (if t in anon then anon[t] else []) == Places(es, |es|, t);
  }

  lemma NoErasers(rows: seq<Row>)
    ensures AnonymizedRows([], rows) == rows
  {
    forall k | 0 <= k < |rows| ensures Anonymized([], rows[k]) == rows[k] {
      NothingHits([], rows[k]);
    }
  }

  lemma AllReported(es: seq<Eraser>, anonTables: seq<string>, anon: map<string, seq<nat>>, before: Tables, results: seq<nat>)
    requires (forall e :: e in es ==> e.table in before) && Grouped(es, |es|, anonTables, anon) && Reported(es, before, results, anonTables)
    ensures |results| == |es| && forall i :: 0 <= i < |es| ==> results[i] == Affected(es, before, i)
  {
    forall i | 0 <= i < |es| && es[i].mode == Anonymize ensures es[i].table in anonTables {
      PlacesComplete(es, |es|, i);
    }
  }

  // ---- Running the battery plane again -------------------------------------

  /** On each table, no tombstone is a value some eraser of it looks for. */
  ghost predicate TombstonesApartByTable(es: seq<Eraser>) {
    forall a, b :: a in es && b in es && a.table == b.table ==> Tombstone(a) != b.value && forall w :: w in b.also ==> Tombstone(a) != w.1
  }

  function OnTable(es: seq<Eraser>, t: string): (r: seq<Eraser>)
    ensures forall e :: e in r <==> e in es && e.table == t
  {
    if es == [] then [] else
      assert es == [es[0]] + es[1..];
      (if es[0].table == t then [es[0]] else []) + OnTable(es[1..], t)
  }

  lemma {:induction false} DeletedDoNotMatch(es: seq<Eraser>, n: nat, t: string, rows: seq<Row>, i: nat)
    requires i < n <= |es| && DeletesFrom(es[i], t)
    ensures forall x :: x in AfterDeletes(es, n, t, rows) ==> !Matches(es[i], x)
  {
    if i < n - 1 { DeletedDoNotMatch(es, n - 1, t, rows, i); }
  }

  lemma {:induction false} NoDeletesMatch(es: seq<Eraser>, n: nat, t: string, rows: seq<Row>)
    requires n <= |es| && forall i, x :: 0 <= i < |es| && es[i].table == t && x in rows ==> !Matches(es[i], x)
    ensures AfterDeletes(es, n, t, rows) == rows
  {
    if n > 0 {
      NoDeletesMatch(es, n - 1, t, rows);
      if DeletesFrom(es[n - 1], t) { AllSurvive(es[n - 1], rows); }
    }
  }

  lemma {:induction false} AllSurvive(e: Eraser, rows: seq<Row>)
    requires forall x :: x in rows ==> !Matches(e, x)
    ensures Survivors(e, rows) == rows
  {
    if rows != [] {
      assert rows == [rows[0]] + rows[1..];
      AllSurvive(e, rows[1..]);
    }
  }

  lemma {:induction false} GroupHolds(es: seq<Eraser>, n: nat, t: string, i: nat)
    requires i < n <= |es| && es[i].mode == Anonymize && es[i].table == t
    ensures es[i] in Group(es, n, t)
  {
    if i < n - 1 { GroupHolds(es, n - 1, t, i); }
  }

  /** After the erasure no eraser of the table matches any row left. */
  lemma ErasedMatchesNothing(es: seq<Eraser>, t: string, rows: seq<Row>, i: nat, x: Row)
    requires TombstonesApartByTable(es) && i < |es| && es[i].table == t && x in ErasedRows(es, t, rows)
    ensures !Matches(es[i], x)
  {
    var g, rest, all := Group(es, |es|, t), AfterDeletes(es, |es|, t, rows), OnTable(es, t);
    var k :| 0 <= k < |rest| && AnonymizedRows(g, rest)[k] == x;
    var row := rest[k];
    assert es[i] in es && row in rest;
    if es[i].mode == Delete {
      DeletedDoNotMatch(es, |es|, t, rows, i);
    } else {
      GroupHolds(es, |es|, t, i);
    }
    if Matches(es[i], Anonymized(g, row)) { NoNewMatch(g, all, es[i], row); }
  }

  /** A second erasure of the same user reports zero for every eraser and changes no row. */
  lemma SecondErasureAffectsNothing(es: seq<Eraser>, tables: Tables)
    requires TombstonesApartByTable(es) && forall e :: e in es ==> e.table in tables
    ensures var after := ErasedTables(es, tables);
            && ErasedTables(es, after) == after
            && forall i :: 0 <= i < |es| ==> es[i].table in after && Affected(es, after, i) == 0
  {
    var after := ErasedTables(es, tables);
    forall i, t, x | 0 <= i < |es| && t in after && es[i].table == t && x in after[t] ensures !Matches(es[i], x) {
      ErasedMatchesNothing(es, t, tables[t], i, x);
    }
    forall t | t in after ensures ErasedRows(es, t, after[t]) == after[t] {
      StaysErased(es, t, after[t]);
    }
    forall i | 0 <= i < |es| ensures es[i].table in after && Affected(es, after, i) == 0 {
      assert es[i] in es;
      NoneAffected(es, after, i);
    }
  }

  lemma StaysErased(es: seq<Eraser>, t: string, rows: seq<Row>)
    requires forall i, x :: 0 <= i < |es| && es[i].table == t && x in rows ==> !Matches(es[i], x)
    ensures ErasedRows(es, t, rows) == rows
  {
    NoDeletesMatch(es, |es|, t, rows);
    var g := Group(es, |es|, t);
    forall k | 0 <= k < |rows| ensures Anonymized(g, rows[k]) == rows[k] {
      forall j | 0 <= j < |g| ensures !Matches(g[j], rows[k]) {
        assert g[j] in g;
        var i :| 0 <= i < |es| && es[i] == g[j];
        assert rows[k] in rows;
      }
      NothingHits(g, rows[k]);
    }
  }

  lemma NoneAffected(es: seq<Eraser>, tables: Tables, i: nat)
    requires i < |es| && es[i].table in tables
    requires forall j, x :: 0 <= j < |es| && es[j].table == es[i].table && x in tables[es[i].table] ==> !Matches(es[j], x)
    ensures Affected(es, tables, i) == 0
  {
    var t := es[i].table;
    NoDeletesMatch(es, if es[i].mode == Delete then i else |es|, t, tables[t]);
    assert forall k: nat :: k < |tables[t]| ==> tables[t][k] in tables[t];
    assert Matched(es[i], tables[t]) == {};
  }
}
