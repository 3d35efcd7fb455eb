/**
rawReadEach: every row of a table, read page by page. Each page asks for the rows whose
key is greater than the last one read.
*/
module Paging {
  import opened Relational

  /** A row: its key columns in key order, and the rest. */
  datatype Keyed = Keyed(key: seq<Cell>, rest: nat)

  // ---- ORDER BY and WHERE --------------------------------------------------

  /** NULL sorts before every value (SQLite) or after (Postgres). */
  predicate CellBefore(nullsFirst: bool, a: Cell, b: Cell) {
    match (a, b)
    case (Null, Null) => false
    case (Null, Val(_)) => nullsFirst
    case (Val(_), Null) => !nullsFirst
    case (Val(x), Val(y)) => x < y
  }

  predicate KeyLeq(nullsFirst: bool, a: seq<Cell>, b: seq<Cell>) {
    a == [] || (b != [] && (CellBefore(nullsFirst, a[0], b[0]) || (a[0] == b[0] && KeyLeq(nullsFirst, a[1..], b[1..]))))
  }

  /** SQL's row-value `a > b` where it is true: a comparison that meets a NULL first is not. */
  predicate Greater(a: seq<Cell>, b: seq<Cell>) {
    && a != [] && b != [] && a[0].Val? && b[0].Val?
    && (a[0].v > b[0].v || (a[0].v == b[0].v && Greater(a[1..], b[1..])))
  }

  predicate NoNull(key: seq<Cell>) {
    forall i :: 0 <= i < |key| ==> key[i].Val?
  }

  lemma {:induction false} KeyLeqTotal(nf: bool, a: seq<Cell>, b: seq<Cell>)
    ensures KeyLeq(nf, a, b) || KeyLeq(nf, b, a)
  {
    if a != [] && b != [] && a[0] == b[0] {
      KeyLeqTotal(nf, a[1..], b[1..]);
    }
  }

  lemma {:induction false} KeyLeqTransitive(nf: bool, a: seq<Cell>, b: seq<Cell>, c: seq<Cell>)
    requires KeyLeq(nf, a, b) && KeyLeq(nf, b, c)
    ensures KeyLeq(nf, a, c)
  {
    if a != [] && a[0] == b[0] == c[0] {
      KeyLeqTransitive(nf, a[1..], b[1..], c[1..]);
    }
  }

  /** A greater key is strictly after in either order. */
  lemma {:induction false} GreaterIsAfter(nf: bool, a: seq<Cell>, b: seq<Cell>)
    requires Greater(a, b)
    ensures !KeyLeq(nf, a, b)
  {
    if a[0] == b[0] {
      GreaterIsAfter(nf, a[1..], b[1..]);
    }
  }

  lemma {:induction false} KeyLeqAntisymmetric(nf: bool, a: seq<Cell>, b: seq<Cell>)
    requires |a| == |b| && KeyLeq(nf, a, b) && KeyLeq(nf, b, a)
    ensures a == b
  {
    if a != [] {
      KeyLeqAntisymmetric(nf, a[1..], b[1..]);
      assert a == [a[0]] + a[1..] && b == [b[0]] + b[1..];
    }
  }

  /** After a key without NULL, NULLs sorting first, everything strictly later is greater. */
  lemma {:induction false} AfterIsGreater(nf: bool, a: seq<Cell>, b: seq<Cell>)
    requires |a| == |b| && NoNull(b) && (nf || NoNull(a)) && KeyLeq(nf, b, a) && a != b
    ensures Greater(a, b)
  {
    if a[0] == b[0] {
      assert a == [a[0]] + a[1..] && b == [b[0]] + b[1..];
      AfterIsGreater(nf, a[1..], b[1..]);
    }
  }

  predicate InOrder(nf: bool, rows: seq<Keyed>) {
    forall i, j :: 0 <= i < j < |rows| ==> KeyLeq(nf, rows[i].key, rows[j].key)
  }

  /** Placed before the first row it does not come after. */
  function Place(nf: bool, x: Keyed, rows: seq<Keyed>): (r: seq<Keyed>)
    requires InOrder(nf, rows)
    ensures InOrder(nf, r) && multiset(r) == multiset(rows) + multiset{x}
  {
    if rows == [] then [x]
    else
      assert rows == [rows[0]] + rows[1..];
      if KeyLeq(nf, x.key, rows[0].key) then
        FirstIsLeast(nf, x, rows);
        [x] + rows
      else
        FirstStaysLeast(nf, x, rows, Place(nf, x, rows[1..]));
        [rows[0]] + Place(nf, x, rows[1..])
  }

  lemma FirstIsLeast(nf: bool, x: Keyed, rows: seq<Keyed>)
    requires rows != [] && InOrder(nf, rows) && KeyLeq(nf, x.key, rows[0].key)
    ensures InOrder(nf, [x] + rows)
  {
    forall j | 0 <= j < |rows| ensures KeyLeq(nf, x.key, rows[j].key) {
      if j > 0 { KeyLeqTransitive(nf, x.key, rows[0].key, rows[j].key); }
    }
  }

  lemma FirstStaysLeast(nf: bool, x: Keyed, rows: seq<Keyed>, r: seq<Keyed>)
    requires rows != [] && InOrder(nf, rows) && !KeyLeq(nf, x.key, rows[0].key)
    requires InOrder(nf, r) && multiset(r) == multiset(rows[1..]) + multiset{x}
    ensures InOrder(nf, [rows[0]] + r)
  {
    KeyLeqTotal(nf, x.key, rows[0].key);
    forall j | 0 <= j < |r| ensures KeyLeq(nf, rows[0].key, r[j].key) {
      assert r[j] in multiset(r);
      if r[j] != x {
        assert r[j] in multiset(rows[1..]);
        var k :| 0 <= k < |rows| - 1 && rows[1..][k] == r[j];
        assert rows[k + 1] == r[j];
      }
    }
  }

  /** One ordered scan of the whole table. */
  function Scan(nf: bool, rows: seq<Keyed>): (r: seq<Keyed>)
    ensures InOrder(nf, r) && multiset(r) == multiset(rows) && |r| == |rows|
  {
    if rows == [] then [] else
      assert rows == [rows[0]] + rows[1..];
      var r := Place(nf, rows[0], Scan(nf, rows[1..]));
      assert |multiset(r)| == |r| && |multiset(rows)| == |rows|;
      r
  }

  datatype After = Start | Key(key: seq<Cell>)

  predicate Asked(row: Keyed, last: After) {
    last.Start? || Greater(row.key, last.key)
  }

  /** WHERE key > last: the rows it keeps, in order. */
  function Where(rows: seq<Keyed>, last: After): seq<Keyed> {
    if rows == [] then [] else (if Asked(rows[0], last) then [rows[0]] else []) + Where(rows[1..], last)
  }

  /** SELECT … WHERE key > last ORDER BY key LIMIT n. */
  function Page(nf: bool, rows: seq<Keyed>, last: After, n: nat): seq<Keyed> {
    var kept := Where(Scan(nf, rows), last);
    if |kept| <= n then kept else kept[..n]
  }

  lemma {:induction false} WhereSplits(rows: seq<Keyed>, last: After, i: nat, m: nat)
    requires i <= m <= |rows|
    requires forall j :: 0 <= j < |rows| ==> (Asked(rows[j], last) <==> i <= j < m)
    ensures Where(rows, last) == rows[i..m]
  {
    hide *;
    WhereStep(rows, last);
    if rows != [] {
      var t := rows[1..];
      assert forall j :: 0 <= j < |t| ==> t[j] == rows[j + 1];
      if i > 0 {
        WhereSplits(t, last, i - 1, m - 1);
        DropSlice(rows, i, m);
      } else {
        WhereSplits(t, last, 0, if m > 0 then m - 1 else 0);
        if m > 0 { HeadSlice(rows, m); }
      }
    }
  }

  lemma WhereStep(rows: seq<Keyed>, last: After)
    ensures rows == [] ==> Where(rows, last) == []
    ensures rows != [] && Asked(rows[0], last) ==> Where(rows, last) == [rows[0]] + Where(rows[1..], last)
    ensures rows != [] && !Asked(rows[0], last) ==> Where(rows, last) == Where(rows[1..], last)
  {
  }

  lemma HeadSlice(rows: seq<Keyed>, m: nat)
    requires 0 < m <= |rows|
    ensures rows[0..m] == [rows[0]] + rows[1..][0..m - 1]
  {
  }

  lemma DropSlice(rows: seq<Keyed>, i: nat, m: nat)
    requires 0 < i <= m <= |rows|
    ensures rows[1..][i - 1..m - 1] == rows[i..m]
  {
  }

  // ---- The read ------------------------------------------------------------

  /** The key is unique among the rows that have one; every row has all its columns. */
  ghost predicate UniqueKeys(rows: seq<Keyed>, width: nat) {
    && (forall r :: r in rows ==> |r.key| == width)
    && forall i, j :: 0 <= i < j < |rows| && rows[i].key == rows[j].key ==> !NoNull(rows[i].key)
  }

  ghost predicate NoNullKeys(rows: seq<Keyed>) {
    forall r :: r in rows ==> NoNull(r.key)
  }

  /** The rows with a whole key, in the same order. */
  function Wholes(rows: seq<Keyed>): seq<Keyed> {
    if rows == [] then [] else (if NoNull(rows[0].key) then [rows[0]] else []) + Wholes(rows[1..])
  }

  lemma {:induction false} WholesAre(rows: seq<Keyed>)
    ensures |Wholes(rows)| <= |rows| && NoNullKeys(Wholes(rows))
    ensures forall r :: r in Wholes(rows) <==> r in rows && NoNull(r.key)
    ensures NoNullKeys(rows) ==> Wholes(rows) == rows
  {
    if rows != [] {
      WholesAre(rows[1..]);
      assert rows == [rows[0]] + rows[1..];
      assert rows[0] in rows && forall r :: r in rows[1..] ==> r in rows;
    }
  }

  lemma WholesStep(rows: seq<Keyed>)
    requires rows != []
    ensures Wholes(rows) == (if NoNull(rows[0].key) then [rows[0]] else []) + Wholes(rows[1..])
  {
  }

  lemma WholesOfMore(x: Keyed, rows: seq<Keyed>)
    ensures Wholes([x] + rows) == (if NoNull(x.key) then [x] else []) + Wholes(rows)
  {
    assert ([x] + rows)[1..] == rows;
  }

  lemma WhereOfMore(x: Keyed, rows: seq<Keyed>, last: After)
    ensures Where([x] + rows, last) == (if Asked(x, last) then [x] else []) + Where(rows, last)
  {
    assert ([x] + rows)[1..] == rows;
  }

  lemma {:induction false} WholesSplit(a: seq<Keyed>, b: seq<Keyed>)
    ensures Wholes(a + b) == Wholes(a) + Wholes(b)
  {
    if a == [] {
      assert a + b == b;
    } else {
      var x, t := a[0], a[1..];
      WholesSplit(t, b);
      WholesOfMore(x, t + b);
      WholesStep(a);
      hide *;
      assert a + b == [x] + (t + b);
      Reassociate(if NoNull(x.key) then [x] else [], Wholes(t), Wholes(b));
    }
  }

  lemma Reassociate(a: seq<Keyed>, b: seq<Keyed>, c: seq<Keyed>)
    ensures a + (b + c) == a + b + c
  {
  }

  /** It does not matter which filter comes first. */
  lemma {:induction false} WholesOfWhere(rows: seq<Keyed>, last: After)
    ensures Wholes(Where(rows, last)) == Where(Wholes(rows), last)
  {
    if rows != [] {
      var x, t := rows[0], rows[1..];
      WholesOfWhere(t, last);
      WholesOfMore(x, Where(t, last));
      WhereOfMore(x, Wholes(t), last);
      WholesOfMore(x, t);
      WhereOfMore(x, t, last);
      hide *;
      assert rows == [x] + t;
      assert [] + Where(t, last) == Where(t, last) && [] + Wholes(t) == Wholes(t);
      assert [] + Wholes(Where(t, last)) == Wholes(Where(t, last)) && [] + Where(Wholes(t), last) == Where(Wholes(t), last);
    }
  }

  lemma {:induction false} WhereInOrder(nf: bool, rows: seq<Keyed>, last: After)
    requires InOrder(nf, rows)
    ensures InOrder(nf, Where(rows, last))
  {
    if rows != [] {
      var t := rows[1..];
      WhereInOrder(nf, t, last);
      WhereAsked(t, last);
      HeadInOrder(nf, rows, Where(t, last));
    }
  }

  lemma {:induction false} WholesInOrder(nf: bool, rows: seq<Keyed>)
    requires InOrder(nf, rows)
    ensures InOrder(nf, Wholes(rows))
  {
    if rows != [] {
      var t := rows[1..];
      WholesInOrder(nf, t);
      WholesAre(t);
      HeadInOrder(nf, rows, Wholes(t));
    }
  }

  lemma HeadInOrder(nf: bool, rows: seq<Keyed>, r: seq<Keyed>)
    requires rows != [] && InOrder(nf, rows) && InOrder(nf, r) && forall x :: x in r ==> x in rows[1..]
    ensures InOrder(nf, [rows[0]] + r)
  {
    forall j | 0 <= j < |r| ensures KeyLeq(nf, rows[0].key, r[j].key) {
      assert r[j] in rows[1..];
      var k :| 0 <= k < |rows[1..]| && rows[1..][k] == r[j];
      assert rows[k + 1] == r[j];
    }
  }

  lemma TailUnique(rows: seq<Keyed>, width: nat)
    requires rows != [] && UniqueKeys(rows, width)
    ensures UniqueKeys(rows[1..], width)
    ensures NoNull(rows[0].key) ==> forall r :: r in rows[1..] ==> r.key != rows[0].key
  {
    assert forall j :: 0 <= j < |rows[1..]| ==> rows[1..][j] == rows[j + 1];
  }

  lemma HeadUnique(x: Keyed, rows: seq<Keyed>, width: nat)
    requires UniqueKeys(rows, width) && |x.key| == width && forall r :: r in rows ==> r.key != x.key
    ensures UniqueKeys([x] + rows, width)
  {
    assert forall j :: 0 <= j < |rows| ==> rows[j] in rows;
  }

  lemma {:induction false} WholesUnique(rows: seq<Keyed>, width: nat)
    requires UniqueKeys(rows, width)
    ensures UniqueKeys(Wholes(rows), width)
  {
    if rows != [] {
      var x, t := rows[0], rows[1..];
      assert x in rows && |x.key| == width;
      hide UniqueKeys;
      TailUnique(rows, width);
      WholesUnique(t, width);
      WholesAre(t);
      WholesStep(rows);
      if NoNull(x.key) {
        HeadUnique(x, Wholes(t), width);
      } else {
        assert [] + Wholes(t) == Wholes(t);
      }
    }
  }

  lemma SameMembers(a: seq<Keyed>, b: seq<Keyed>)
    requires multiset(a) == multiset(b)
    ensures forall r :: r in a <==> r in b
  {
    forall r ensures r in a <==> r in b {
      assert r in a <==> r in multiset(a);
      assert r in b <==> r in multiset(b);
    }
  }

  function KeyCount(rows: seq<Keyed>, key: seq<Cell>): nat {
    if rows == [] then 0 else (if rows[0].key == key then 1 else 0) + KeyCount(rows[1..], key)
  }

  lemma {:induction false} PlaceKeyCount(nf: bool, x: Keyed, rows: seq<Keyed>, key: seq<Cell>)
    requires InOrder(nf, rows)
    ensures KeyCount(Place(nf, x, rows), key) == KeyCount(rows, key) + if x.key == key then 1 else 0
  {
    if rows != [] && !KeyLeq(nf, x.key, rows[0].key) {
      PlaceKeyCount(nf, x, rows[1..], key);
      assert ([rows[0]] + Place(nf, x, rows[1..]))[1..] == Place(nf, x, rows[1..]);
    } else {
      assert ([x] + rows)[1..] == rows;
    }
  }

  lemma {:induction false} ScanKeyCount(nf: bool, rows: seq<Keyed>, key: seq<Cell>)
    ensures KeyCount(Scan(nf, rows), key) == KeyCount(rows, key)
  {
    if rows != [] {
      ScanKeyCount(nf, rows[1..], key);
      PlaceKeyCount(nf, rows[0], Scan(nf, rows[1..]), key);
    }
  }

  lemma {:induction false} KeyIsCounted(rows: seq<Keyed>, j: nat)
    requires j < |rows|
    ensures KeyCount(rows, rows[j].key) >= 1
  {
    if j > 0 { KeyIsCounted(rows[1..], j - 1); }
  }

  lemma {:induction false} TwoRowsCount(rows: seq<Keyed>, i: nat, j: nat)
    requires i < j < |rows| && rows[i].key == rows[j].key
    ensures KeyCount(rows, rows[i].key) >= 2
  {
    if i > 0 {
      TwoRowsCount(rows[1..], i - 1, j - 1);
    } else {
      KeyIsCounted(rows[1..], j - 1);
    }
  }

  lemma {:induction false} CountedRowsExist(rows: seq<Keyed>, key: seq<Cell>)
    requires KeyCount(rows, key) >= 1
    ensures exists j :: 0 <= j < |rows| && rows[j].key == key
  {
    if rows[0].key != key {
      CountedRowsExist(rows[1..], key);
      var j :| 0 <= j < |rows[1..]| && rows[1..][j].key == key;
      assert rows[j + 1].key == key;
    }
  }

  lemma {:induction false} CountedTwice(rows: seq<Keyed>, key: seq<Cell>)
    requires KeyCount(rows, key) >= 2
    ensures exists i, j :: 0 <= i < j < |rows| && rows[i].key == rows[j].key == key
  {
    if rows[0].key == key {
      CountedRowsExist(rows[1..], key);
      var j :| 0 <= j < |rows[1..]| && rows[1..][j].key == key;
      assert rows[0].key == rows[j + 1].key == key;
    } else {
      CountedTwice(rows[1..], key);
      var i, j :| 0 <= i < j < |rows[1..]| && rows[1..][i].key == rows[1..][j].key == key;
      assert rows[i + 1].key == rows[j + 1].key == key;
    }
  }

  lemma ScanUnique(nf: bool, rows: seq<Keyed>, width: nat)
    requires UniqueKeys(rows, width)
    ensures UniqueKeys(Scan(nf, rows), width)
  {
    var all := Scan(nf, rows);
    SameMembers(all, rows);
    forall i, j | 0 <= i < j < |all| && all[i].key == all[j].key ensures !NoNull(all[i].key) {
      TwoRowsCount(all, i, j);
      ScanKeyCount(nf, rows, all[i].key);
      CountedTwice(rows, all[i].key);
    }
  }

  // ---- One page ------------------------------------------------------------

  /**
  Some page ends with a row this key sorts after and does not compare greater to:
  no later page asks for it. Pages end after every `n`th row with a whole key.
  */
  ghost predicate Hidden(nf: bool, wholes: seq<Keyed>, n: nat, key: seq<Cell>) {
    exists b :: 0 < b <= |wholes| && PageEnd(b, n) && KeyLeq(nf, wholes[b - 1].key, key) && !Greater(key, wholes[b - 1].key)
  }

  /** A whole number of pages. */
  predicate PageEnd(b: nat, n: nat) {
    n > 0 && (b == 0 || (b >= n && PageEnd(b - n, n)))
  }

  lemma {:induction false} NoEndBetween(m: nat, n: nat, b: nat)
    requires PageEnd(m, n) && m < b < m + n
    ensures !PageEnd(b, n)
    decreases m
  {
    if m > 0 { NoEndBetween(m - n, n, b - n); }
  }

  lemma NextPageEnd(m: nat, n: nat)
    requires PageEnd(m, n)
    ensures PageEnd(m + n, n) && forall b :: m < b < m + n ==> !PageEnd(b, n)
  {
    forall b | m < b < m + n ensures !PageEnd(b, n) { NoEndBetween(m, n, b); }
  }

  /** The read as far as it has come: the first `m` rows with a whole key, up to a page's end. */
  ghost predicate ReadSoFar(nf: bool, all: seq<Keyed>, n: nat, emitted: seq<Keyed>, last: After) {
    var wholes := Wholes(all);
    && emitted <= wholes && PageEnd(|emitted|, n)
    && (last.Start? <==> emitted == [])
    && (last.Key? ==> last.key == emitted[|emitted| - 1].key)
    && (forall r :: r in all && !NoNull(r.key) ==> StillToCome(nf, wholes, n, last, r.key))
  }

  /** A key with a NULL in it is past the last one read, or hidden. */
  ghost predicate StillToCome(nf: bool, wholes: seq<Keyed>, n: nat, last: After, key: seq<Cell>) {
    last.Start? || KeyLeq(nf, last.key, key) || Hidden(nf, wholes, n, key)
  }

  /** Of the rows with a whole key, those asked for are exactly those not yet read. */
  lemma AskedIsLater(nf: bool, wholes: seq<Keyed>, width: nat, m: nat, j: nat)
    requires InOrder(nf, wholes) && UniqueKeys(wholes, width) && NoNullKeys(wholes) && 0 < m <= |wholes| && j < |wholes|
    ensures Asked(wholes[j], Key(wholes[m - 1].key)) <==> m <= j
  {
    var a, b := wholes[j], wholes[m - 1];
    assert a in wholes && b in wholes;
    if Asked(a, Key(b.key)) {
      GreaterIsAfter(nf, a.key, b.key);
      if j < m { NotAfter(nf, wholes, j, m - 1); }
    } else if m <= j {
      AfterIsGreater(nf, a.key, b.key);
    }
  }

  lemma NotAfter(nf: bool, all: seq<Keyed>, j: nat, i: nat)
    requires InOrder(nf, all) && j <= i < |all|
    ensures KeyLeq(nf, all[j].key, all[i].key)
  {
    KeyLeqTotal(nf, all[i].key, all[i].key);
  }

  /** So the whole rows among those a question asks for are the rest of the listing. */
  lemma WholesAsked(nf: bool, all: seq<Keyed>, width: nat, n: nat, emitted: seq<Keyed>, last: After)
    requires InOrder(nf, all) && UniqueKeys(all, width) && ReadSoFar(nf, all, n, emitted, last)
    ensures Wholes(Where(all, last)) == Wholes(all)[|emitted|..]
  {
    hide InOrder, UniqueKeys, NoNullKeys, Wholes, Where, StillToCome, PageEnd, Asked;
    var w, m := Wholes(all), |emitted|;
    WholesOfWhere(all, last);
    WholesFacts(nf, all, width);
    if last.Key? {
      assert last.key == w[m - 1].key;
      forall j | 0 <= j < |w| ensures Asked(w[j], last) <==> m <= j {
        AskedIsLater(nf, w, width, m, j);
      }
    } else {
      assert forall r :: Asked(r, last) by { AllAsked(last); }
    }
    WhereSplits(w, last, m, |w|);
    assert w[m..|w|] == w[m..];
  }

  lemma AllAsked(last: After)
    requires last.Start?
    ensures forall r :: Asked(r, last)
  {
  }

  /** What is known when a page has been read. */
  ghost predicate IsPage(nf: bool, all: seq<Keyed>, width: nat, n: nat, before: seq<Keyed>, asked: After, page: seq<Keyed>) {
    && InOrder(nf, all) && UniqueKeys(all, width) && ReadSoFar(nf, all, n, before, asked)
    && page == (if |Where(all, asked)| <= n then Where(all, asked) else Where(all, asked)[..n])
  }

  /** A page of whole rows is the next stretch of the listing. */
  lemma PageIsNext(nf: bool, all: seq<Keyed>, width: nat, n: nat, before: seq<Keyed>, asked: After, page: seq<Keyed>)
    requires IsPage(nf, all, width, n, before, asked, page) && NoNullKeys(page)
    ensures before + page <= Wholes(all) && |page| <= n
    ensures |page| < n ==> before + page == Wholes(all) && page == Where(all, asked)
  {
    var f, w, m := Where(all, asked), Wholes(all), |before|;
    WholesAsked(nf, all, width, n, before, asked);
    assert f == page + f[|page|..];
    WholesSplit(page, f[|page|..]);
    WholesAre(page);
    assert w == before + w[m..];
    if |page| < n {
      assert f[|page|..] == [];
    }
  }

  /** Where another page follows, what was still to come and is not in this page is past it, or hidden now. */
  lemma PageRead(nf: bool, all: seq<Keyed>, width: nat, n: nat, before: seq<Keyed>, asked: After, page: seq<Keyed>)
    requires IsPage(nf, all, width, n, before, asked, page) && NoNullKeys(page) && |page| == n > 0
    ensures ReadSoFar(nf, all, n, before + page, Key(page[|page| - 1].key))
  {
    PageIsNext(nf, all, width, n, before, asked, page);
    NextPageEnd(|before|, n);
    var last := Key(page[|page| - 1].key);
    assert (before + page)[|before + page| - 1] == page[|page| - 1];
    forall r | r in all && !NoNull(r.key) ensures StillToCome(nf, Wholes(all), n, last, r.key) {
      NullComesLater(nf, all, width, n, before, asked, page, r);
    }
  }

  lemma NullComesLater(nf: bool, all: seq<Keyed>, width: nat, n: nat, before: seq<Keyed>, asked: After, page: seq<Keyed>, r: Keyed)
    requires IsPage(nf, all, width, n, before, asked, page) && NoNullKeys(page) && |page| == n > 0
    requires r in all && !NoNull(r.key)
    ensures StillToCome(nf, Wholes(all), n, Key(page[n - 1].key), r.key)
  {
    var f := Where(all, asked);
    assert StillToCome(nf, Wholes(all), n, asked, r.key);
    if Asked(r, asked) {
      WhereInOrder(nf, all, asked);
      WhereHas(all, asked, r);
      var k :| 0 <= k < |f| && f[k] == r;
      assert forall x :: 0 <= x < n ==> f[x] == page[x] && page[x] in page && NoNull(page[x].key);
      NotAfter(nf, f, n - 1, k);
      assert page[n - 1] == f[n - 1];
    } else {
      NotAskedIsHidden(nf, all, n, before, asked, r.key);
    }
  }

  lemma {:induction false} WhereHas(rows: seq<Keyed>, last: After, r: Keyed)
    requires r in rows && Asked(r, last)
    ensures r in Where(rows, last)
  {
    if rows[0] != r {
      assert r in rows[1..];
      WhereHas(rows[1..], last, r);
    }
  }

  /** A row past the last one read that is not asked for is hidden by it. */
  lemma NotAskedIsHidden(nf: bool, all: seq<Keyed>, n: nat, emitted: seq<Keyed>, last: After, key: seq<Cell>)
    requires ReadSoFar(nf, all, n, emitted, last) && StillToCome(nf, Wholes(all), n, last, key)
    requires last.Key? && !Greater(key, last.key)
    ensures Hidden(nf, Wholes(all), n, key)
  {
    var m := |emitted|;
    assert Wholes(all)[m - 1] == emitted[m - 1];
  }

  /** When the last page has been read, everything with a NULL in its key was hidden. */
  lemma EndedRightly(nf: bool, all: seq<Keyed>, width: nat, n: nat, before: seq<Keyed>, asked: After, page: seq<Keyed>)
    requires IsPage(nf, all, width, n, before, asked, page) && NoNullKeys(page) && |page| < n
    ensures before + page == Wholes(all)
    ensures forall r :: r in all && !NoNull(r.key) ==> Hidden(nf, Wholes(all), n, r.key)
  {
    PageIsNext(nf, all, width, n, before, asked, page);
    forall r | r in all && !NoNull(r.key) ensures Hidden(nf, Wholes(all), n, r.key) {
      assert StillToCome(nf, Wholes(all), n, asked, r.key);
      if Asked(r, asked) { WhereHas(all, asked, r); }
      assert r !in page && !Asked(r, asked);
      NotAskedIsHidden(nf, all, n, before, asked, r.key);
    }
  }

  /** A row with a NULL in its key that comes back in a page is hidden by no page's end. */
  lemma RefusedRightly(nf: bool, all: seq<Keyed>, width: nat, n: nat, before: seq<Keyed>, asked: After, page: seq<Keyed>, k: nat)
    requires IsPage(nf, all, width, n, before, asked, page) && k < |page| && !NoNull(page[k].key)
    ensures page[k] in all && !Hidden(nf, Wholes(all), n, page[k].key)
  {
    var f, w, m, r := Where(all, asked), Wholes(all), |before|, page[k];
    WhereAsked(all, asked);
    assert f[k] == r && r in f;
    forall b | 0 < b <= |w| && PageEnd(b, n) && KeyLeq(nf, w[b - 1].key, r.key) ensures Greater(r.key, w[b - 1].key) {
      if b <= m {
        EarlierEnd(nf, all, width, n, before, asked, r, b);
      } else {
        LaterEnd(nf, all, width, n, before, asked, page, k, b);
      }
    }
  }

  lemma WholesFacts(nf: bool, all: seq<Keyed>, width: nat)
    requires InOrder(nf, all) && UniqueKeys(all, width)
    ensures InOrder(nf, Wholes(all)) && UniqueKeys(Wholes(all), width) && NoNullKeys(Wholes(all))
  {
    WholesInOrder(nf, all);
    WholesUnique(all, width);
    WholesAre(all);
  }

  /** Greater than the last row read, it is greater than every row read before. */
  lemma EarlierEnd(nf: bool, all: seq<Keyed>, width: nat, n: nat, emitted: seq<Keyed>, last: After, r: Keyed, b: nat)
    requires InOrder(nf, all) && UniqueKeys(all, width) && ReadSoFar(nf, all, n, emitted, last) && Asked(r, last) && 0 < b <= |emitted|
    ensures b <= |Wholes(all)| && Greater(r.key, Wholes(all)[b - 1].key)
  {
    hide InOrder, UniqueKeys, NoNullKeys, Wholes, StillToCome, PageEnd;
    var w, m := Wholes(all), |emitted|;
    assert w[m - 1] == emitted[m - 1];
    if b < m {
      WholesFacts(nf, all, width);
      AskedIsLater(nf, w, width, b, m - 1);
      GreaterTransitive(r.key, w[m - 1].key, w[b - 1].key);
    }
  }

  /** The first whole row at or after place `k` is at most the `k`th of them all. */
  lemma WholeBehind(f: seq<Keyed>, k: nat) returns (q: nat, i: nat)
    requires k < |f| && |Wholes(f)| > k
    ensures q <= k <= i < |f| && Wholes(f)[q] == f[i]
  {
    hide *;
    var front, back := f[..k], f[k..];
    assert f == front + back;
    WholesSplit(front, back);
    WholesAre(front);
    WholesAre(back);
    q := |Wholes(front)|;
    var j := MemberAt(back, Wholes(back)[0]);
    i := k + j;
    assert f[k + j] == back[j];
  }

  lemma MemberAt(rows: seq<Keyed>, x: Keyed) returns (j: nat)
    requires x in rows
    ensures j < |rows| && rows[j] == x
  {
    j :| 0 <= j < |rows| && rows[j] == x;
  }

  /** Fewer than a page of rows come before place `k` of what was asked for, so the listing's row `b - 1` does not. */
  lemma WholesBehind(nf: bool, all: seq<Keyed>, width: nat, f: seq<Keyed>, m: nat, k: nat, b: nat)
    requires InOrder(nf, all) && UniqueKeys(all, width) && InOrder(nf, f) && m < b <= |Wholes(all)| && Wholes(f) == Wholes(all)[m..]
    requires k < |f| && m + k < b
    ensures KeyLeq(nf, f[k].key, Wholes(all)[b - 1].key)
  {
    hide Wholes, UniqueKeys, NoNullKeys, KeyLeq, InOrder;
    var w := Wholes(all);
    WholesFacts(nf, all, width);
    var q, i := WholeBehind(f, k);
    assert f[i] == w[m + q];
    NotAfter(nf, f, k, i);
    NotAfter(nf, w, m + q, b - 1);
    KeyLeqTransitive(nf, f[k].key, f[i].key, w[b - 1].key);
  }

  /** A row that sorts after a later page's end has that whole page before it, and is not in this one. */
  lemma LaterEnd(nf: bool, all: seq<Keyed>, width: nat, n: nat, before: seq<Keyed>, asked: After, page: seq<Keyed>, k: nat, b: nat)
    requires IsPage(nf, all, width, n, before, asked, page) && k < |page| && !NoNull(page[k].key)
    requires |before| < b <= |Wholes(all)| && PageEnd(b, n)
    ensures !KeyLeq(nf, Wholes(all)[b - 1].key, page[k].key)
  {
    var f, w, m, r := Where(all, asked), Wholes(all), |before|, page[k];
    assert k < n && f[k] == r;
    NextPageEnd(m, n);
    WholesAsked(nf, all, width, n, before, asked);
    WhereInOrder(nf, all, asked);
    WholesAre(all);
    WhereAsked(all, asked);
    hide InOrder, Where, Wholes, Asked, KeyLeq, PageEnd;
    WholesBehind(nf, all, width, f, m, k, b);
    assert w[b - 1] in w && r in f && r in all && w[b - 1] in all && NoNull(w[b - 1].key);
    if KeyLeq(nf, w[b - 1].key, r.key) { KeyLeqAntisymmetric(nf, r.key, w[b - 1].key); }
  }

  // ---- Termination ---------------------------------------------------------

  lemma {:induction false} GreaterTransitive(a: seq<Cell>, b: seq<Cell>, c: seq<Cell>)
    requires Greater(a, b) && Greater(b, c)
    ensures Greater(a, c)
  {
    if a[0] == b[0] == c[0] {
      GreaterTransitive(a[1..], b[1..], c[1..]);
    }
  }

  /** Asking after a row the last question returned asks for strictly fewer rows. */
  lemma {:induction false} WhereShrinks(rows: seq<Keyed>, last: After, row: Keyed)
    requires Asked(row, last)
    ensures |Where(rows, Key(row.key))| <= |Where(rows, last)|
    ensures row in rows ==> |Where(rows, Key(row.key))| < |Where(rows, last)|
  {
    if rows != [] {
      WhereShrinks(rows[1..], last, row);
      assert rows == [rows[0]] + rows[1..];
      if Asked(rows[0], Key(row.key)) {
        if last.Key? { GreaterTransitive(rows[0].key, row.key, last.key); }
        if rows[0] == row {
          GreaterIsAfter(true, row.key, row.key);
          KeyLeqTotal(true, row.key, row.key);
        }
      }
    }
  }

  lemma {:induction false} WhereAsked(rows: seq<Keyed>, last: After)
    ensures forall r :: r in Where(rows, last) ==> r in rows && Asked(r, last)
  {
    if rows != [] {
      WhereAsked(rows[1..], last);
      assert rows == [rows[0]] + rows[1..];
    }
  }

  lemma PageShrinks(nf: bool, rows: seq<Keyed>, last: After, n: nat)
    requires Page(nf, rows, last, n) != []
    ensures var page := Page(nf, rows, last, n);
            |Where(Scan(nf, rows), Key(page[|page| - 1].key))| < |Where(Scan(nf, rows), last)|
  {
    var page := Page(nf, rows, last, n);
    WhereAsked(Scan(nf, rows), last);
    assert page[|page| - 1] in Where(Scan(nf, rows), last);
    WhereShrinks(Scan(nf, rows), last, page[|page| - 1]);
  }

  // ---- The whole read ------------------------------------------------------

  /** Every row with a NULL in its key is hidden by the end of some page. */
  ghost predicate AllHidden(nf: bool, rows: seq<Keyed>, n: nat) {
    forall r :: r in rows && !NoNull(r.key) ==> Hidden(nf, Wholes(Scan(nf, rows)), n, r.key)
  }

  /**
  Terminates on every table. A table with no key is one statement. Otherwise the
  read goes through exactly when the end of some page hides each row with a NULL
  in its key, and it emits the rows with a whole key in order: a row it does not
  refuse over is dropped in silence.
  */
  method ReadEach(nf: bool, rows: seq<Keyed>, width: nat, pageSize: nat) returns (ok: bool, emitted: seq<Keyed>)
    requires UniqueKeys(rows, width) && pageSize >= 1
    ensures width == 0 ==> ok && emitted == rows
    ensures width > 0 ==> (ok <==> AllHidden(nf, rows, pageSize)) && (ok ==> emitted == Wholes(Scan(nf, rows)))
  {
    hide *;
    if width == 0 {
      return true, rows;
    }
    ghost var all := Scan(nf, rows);
    ScanFacts(nf, rows, width, pageSize);
    emitted := [];
    var last := Start;
    while true
      invariant ReadSoFar(nf, all, pageSize, emitted, last)
      decreases |Where(all, last)|
    {
      var page := Page(nf, rows, last, pageSize);
      ghost var before := emitted;
      var asked := last;
      PageOfScan(nf, rows, width, pageSize, emitted, last);
      emitted := emitted + page;
      var nullKey;
      last, nullKey := ReadRows(page, asked);
      if nullKey {
        var k := NullInPage(page);
        RefusedRightly(nf, all, width, pageSize, before, asked, page, k);
        NotAllHidden(nf, rows, pageSize, page[k]);
        return false, emitted;
      }
      if |page| < pageSize {
        EndedRightly(nf, all, width, pageSize, before, asked, page);
        EveryHidden(nf, rows, pageSize);
        return true, emitted;
      }
      PageIsNext(nf, all, width, pageSize, before, asked, page);
      PageRead(nf, all, width, pageSize, before, asked, page);
      PageShrinks(nf, rows, asked, pageSize);
    }
  }

  lemma ScanFacts(nf: bool, rows: seq<Keyed>, width: nat, n: nat)
    requires UniqueKeys(rows, width) && n >= 1
    ensures var all := Scan(nf, rows); InOrder(nf, all) && UniqueKeys(all, width) && ReadSoFar(nf, all, n, [], Start)
  {
    ScanUnique(nf, rows, width);
  }

  lemma PageOfScan(nf: bool, rows: seq<Keyed>, width: nat, n: nat, emitted: seq<Keyed>, last: After)
    requires UniqueKeys(rows, width) && n >= 1 && ReadSoFar(nf, Scan(nf, rows), n, emitted, last)
    ensures IsPage(nf, Scan(nf, rows), width, n, emitted, last, Page(nf, rows, last, n))
  {
    hide ReadSoFar, Where, InOrder, UniqueKeys;
    ScanFacts(nf, rows, width, n);
  }

  lemma NotAllHidden(nf: bool, rows: seq<Keyed>, n: nat, r: Keyed)
    requires r in Scan(nf, rows) && !NoNull(r.key) && !Hidden(nf, Wholes(Scan(nf, rows)), n, r.key)
    ensures !AllHidden(nf, rows, n)
  {
    SameMembers(Scan(nf, rows), rows);
  }

  lemma EveryHidden(nf: bool, rows: seq<Keyed>, n: nat)
    requires forall r :: r in Scan(nf, rows) && !NoNull(r.key) ==> Hidden(nf, Wholes(Scan(nf, rows)), n, r.key)
    ensures AllHidden(nf, rows, n)
  {
    SameMembers(Scan(nf, rows), rows);
  }

  /** Each row in turn becomes the last key read; a NULL in any of them is remembered. */
  method ReadRows(page: seq<Keyed>, asked: After) returns (last: After, nullKey: bool)
    ensures nullKey <==> !NoNullKeys(page)
    ensures last == if page == [] then asked else Key(page[|page| - 1].key)
  {
    hide *;
    last, nullKey := asked, false;
    NoKeys(page[..0]);
    for k := 0 to |page|
      invariant nullKey <==> !NoNullKeys(page[..k])
      invariant last == if k > 0 then Key(page[k - 1].key) else asked
    {
      OneMoreKey(page, k);
      last := Key(page[k].key);
      nullKey := nullKey || !NoNull(page[k].key);
    }
    assert page[..|page|] == page;
  }

  lemma NoKeys(rows: seq<Keyed>)
    requires rows == []
    ensures NoNullKeys(rows)
  {
  }

  lemma OneMoreKey(page: seq<Keyed>, k: nat)
    requires k < |page|
    ensures NoNullKeys(page[..k + 1]) <==> NoNullKeys(page[..k]) && NoNull(page[k].key)
  {
    assert page[..k + 1] == page[..k] + [page[k]];
  }

  lemma NullInPage(page: seq<Keyed>) returns (k: nat)
    requires !NoNullKeys(page)
    ensures k < |page| && !NoNull(page[k].key)
  {
    var r :| r in page && !NoNull(r.key);
    k :| 0 <= k < |page| && page[k] == r;
  }

  // ---- Which rows are hidden -----------------------------------------------

  /** NULLs sorting first, no row is: the read refuses exactly when a key holds a NULL, and else emits the whole scan. */
  lemma NullsFirstHidesNothing(rows: seq<Keyed>, width: nat, n: nat)
    requires UniqueKeys(rows, width) && n >= 1
    ensures AllHidden(true, rows, n) <==> NoNullKeys(rows)
    ensures NoNullKeys(rows) ==> Wholes(Scan(true, rows)) == Scan(true, rows)
  {
    var all := Scan(true, rows);
    SameMembers(all, rows);
    WholesAre(all);
    forall r | r in rows && !NoNull(r.key) ensures !Hidden(true, Wholes(all), n, r.key) {
      FirstIsNotHidden(Wholes(all), width, n, r.key);
    }
  }

  lemma FirstIsNotHidden(w: seq<Keyed>, width: nat, n: nat, key: seq<Cell>)
    requires NoNullKeys(w) && (forall x :: x in w ==> |x.key| == width) && |key| == width && !NoNull(key)
    ensures !Hidden(true, w, n, key)
  {
    forall b | 0 < b <= |w| && PageEnd(b, n) && KeyLeq(true, w[b - 1].key, key) ensures Greater(key, w[b - 1].key) {
      assert w[b - 1] in w;
      AfterIsGreater(true, key, w[b - 1].key);
    }
  }

  /** With one key column and NULLs sorting last, every such row is as soon as one page of rows has keys, and none is before. */
  lemma OneColumnHidesAfterAPage(rows: seq<Keyed>, n: nat)
    requires UniqueKeys(rows, 1) && n >= 1
    ensures AllHidden(false, rows, n) <==> NoNullKeys(rows) || |Wholes(Scan(false, rows))| >= n
  {
    var w := Wholes(Scan(false, rows));
    SameMembers(Scan(false, rows), rows);
    WholesAre(Scan(false, rows));
    hide Wholes, Scan, Hidden, NoNull;
    forall r | r in rows && !NoNull(r.key) ensures Hidden(false, w, n, r.key) <==> |w| >= n {
      LoneNull(r.key);
      LoneNullHidden(w, n);
    }
  }

  lemma LoneNull(key: seq<Cell>)
    requires |key| == 1 && !NoNull(key)
    ensures key == [Null]
  {
  }

  lemma LoneNullHidden(w: seq<Keyed>, n: nat)
    requires n >= 1 && forall x :: x in w ==> |x.key| == 1 && NoNull(x.key)
    ensures Hidden(false, w, n, [Null]) <==> |w| >= n
  {
    if |w| >= n {
      assert w[n - 1] in w && KeyLeq(false, w[n - 1].key, [Null]);
      assert PageEnd(n - n, n) && PageEnd(n, n);
    } else {
      NextPageEnd(0, n);
    }
  }

  /** Postgres, a declared one-column key that is not NOT NULL: the row without one is dropped and nothing is refused. */
  method NullKeyDropped() returns (ok: bool, emitted: seq<Keyed>)
    ensures ok && emitted == [Keyed([Val(1)], 0), Keyed([Val(2)], 0)]
  {
    var a, b, c := Keyed([Val(1)], 0), Keyed([Val(2)], 0), Keyed([Null], 0);
    var rows := [a, b, c];
    assert UniqueKeys(rows, 1);
    NullIsThere(c.key, 0);
    ThreeRows(a, b, c);
    hide *;
    OneColumnHidesAfterAPage(rows, 2);
    ok, emitted := ReadEach(false, rows, 1, 2);
  }

  lemma NullIsThere(key: seq<Cell>, i: nat)
    requires i < |key| && key[i] == Null
    ensures !NoNull(key)
  {
  }

  /** Rows already in order, the last without a whole key. */
  lemma TwoRows(a: Keyed, b: Keyed)
    requires KeyLeq(false, a.key, b.key) && NoNull(a.key) && !NoNull(b.key)
    ensures Scan(false, [a, b]) == [a, b] && Wholes([a, b]) == [a]
  {
    hide KeyLeq, NoNull;
    assert [a, b][1..] == [b] && [b][1..] == [];
    assert Scan(false, [b]) == [b] && Wholes([b]) == [];
  }

  lemma ThreeRows(a: Keyed, b: Keyed, c: Keyed)
    requires KeyLeq(false, a.key, b.key) && KeyLeq(false, b.key, c.key) && NoNull(a.key) && NoNull(b.key) && !NoNull(c.key)
    ensures Scan(false, [a, b, c]) == [a, b, c] && Wholes([a, b, c]) == [a, b]
  {
    hide *;
    TwoRows(b, c);
    assert [a, b, c] == [a] + [b, c] && [a] + [b] == [a, b];
    WholesOfMore(a, [b, c]);
    ScanOfMore(a, [b, c]);
  }

  /** A row that is not after the first of the others goes before them. */
  lemma ScanOfMore(a: Keyed, rows: seq<Keyed>)
    requires Scan(false, rows) == rows != [] && KeyLeq(false, a.key, rows[0].key)
    ensures Scan(false, [a] + rows) == [a] + rows
  {
    hide KeyLeq;
    assert ([a] + rows)[1..] == rows;
  }

  /** With two key columns it depends on the rows: greater in its first column than every page's end, the row is read, and refused. */
  method NullKeyRefused() returns (ok: bool, emitted: seq<Keyed>)
    ensures !ok
  {
    var whole, partial := Keyed([Val(1), Val(1)], 0), Keyed([Val(2), Null], 0);
    var rows := [whole, partial];
    assert UniqueKeys(rows, 2);
    NullIsThere(partial.key, 1);
    TwoRows(whole, partial);
    assert !Hidden(false, [whole], 1, partial.key) by {
      assert Greater(partial.key, whole.key);
    }
    assert partial in rows && !AllHidden(false, rows, 1);
    hide *;
    ok, emitted := ReadEach(false, rows, 2, 1);
  }
}
