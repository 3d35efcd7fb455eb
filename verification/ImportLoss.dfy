/**
A restore that goes through and leaves a row short of what was archived. Table
`a` has a self-reference and a reference to the later table `b` that share
column `p`, as foreign keys of a multi-tenant schema share the tenant, and two
rows of `a` name each other.
*/
module ImportLoss {
  import opened Relational
  import opened RowOrder
  import opened ImportModel
  import opened ImportRefs
  import opened ImportRun

  /** The names of the schema: tables `a` and `b`, the columns of their key, and those their foreign keys go through. */
  datatype Names = Names(a: string, b: string, id: string, ver: string, p: string, q: string, r: string, m: string, n: string)
  {
    ghost predicate Distinct() {
      a != b && id !in {ver, p, q, r, m, n} && ver !in {p, q, r, m, n} && p !in {q, r} && q != r && m != n
    }

    function Key(): seq<string> { [id, ver] }
    function Peer(): Edge { Edge(a, a, [p, q], Key(), Unset) }
    function Later(): Edge { Edge(a, b, [p, r], Key(), Unset) }
    function Back(): Edge { Edge(b, a, [m, n], Key(), Unset) }

    function Relations(): Graph {
      Graph(map[a := DataTable(Key(), "", false, false, {}), b := DataTable(Key(), "", false, false, {})], [Peer(), Later(), Back()], {a, b})
    }

    /** `a` is written before `b`. */
    function First(): Source { Source(a, [Peer()], [Later()]) }

    function RowA(v: nat, x: Cell, y: Cell, z: Cell): Row {
      map[id := Val(1), ver := Val(v), p := x, q := y, r := z]
    }

    function RowB(): Row {
      map[id := Val(1), ver := Val(1), m := Val(1), n := Val(1)]
    }

    function Tables(rows: seq<Row>, others: seq<Row>): Store {
      map[a := rows, b := others]
    }

    /** Row 1 of `a` names row 2 over `p`, `q`, row 2 names row 1, and both name the row of `b` over `p`, `r`. */
    function Archive(): Store {
      Tables([RowA(1, Val(1), Val(2), Val(1)), RowA(2, Val(1), Val(1), Val(1))], [RowB()])
    }

    /** What `a` is made ready as: the second row's reference closes the cycle. */
    function Made(): Batch {
      Batch([1, 0], [Deferral(1, Peer())],
            [RowA(2, Null, Null, Val(1)), RowA(1, Val(1), Val(2), Val(1))],
            [DeferredRef([Val(1), Val(2)], [p, q], [Val(1), Val(1)])],
            [RowA(2, Null, Null, Null), RowA(1, Null, Val(2), Null)],
            [DeferredRef([Val(1), Val(2)], [p, r], [Null, Val(1)]), DeferredRef([Val(1), Val(1)], [p, r], [Val(1), Val(1)])])
    }

    lemma ReadA(v: nat, x: Cell, y: Cell, z: Cell)
      requires Distinct()
      ensures var row := RowA(v, x, y, z);
              && Cells(row, Key()) == [Val(1), Val(v)] && Cells(row, [p, q]) == [x, y] && Cells(row, [p, r]) == [x, z]
    {
    }

    lemma ReadB()
      requires Distinct()
      ensures Cells(RowB(), Key()) == [Val(1), Val(1)] && Cells(RowB(), [m, n]) == [Val(1), Val(1)]
    {
    }

    ghost predicate RowHolds(rows: seq<Row>, others: seq<Row>, row: Row) {
      && (Full(Cells(row, [p, q])) ==> HoldsKey(rows, Key(), Cells(row, [p, q])))
      && (Full(Cells(row, [p, r])) ==> HoldsKey(others, Key(), Cells(row, [p, r])))
    }

    /** Every foreign key holds where the rows of `a` name rows that are there. */
    lemma StoreIsIntact(rows: seq<Row>, others: seq<Row>)
      requires Distinct() && forall k :: 0 <= k < |rows| ==> RowHolds(rows, others, rows[k])
      requires others == [] || (others == [RowB()] && HoldsKey(rows, Key(), [Val(1), Val(1)]))
      ensures Intact(Relations(), Tables(rows, others))
    {
      var s := Tables(rows, others);
      ReadB();
      forall e, k | e in Relations().edges && 0 <= k < |Table(s, e.child)| ensures Satisfied(s, e, Table(s, e.child)[k]) {
        if e == Back() {
        } else {
          assert e in {Peer(), Later()} && RowHolds(rows, others, rows[k]);
        }
      }
    }

    lemma PairIsIntact(y: Row, x: Row, others: seq<Row>)
      requires Distinct() && Cells(x, Key()) == [Val(1), Val(1)] && Cells(y, Key()) == [Val(1), Val(2)] && (others == [] || others == [RowB()])
      requires !Full(Cells(x, [p, q])) || Cells(x, [p, q]) == [Val(1), Val(2)]
      requires !Full(Cells(y, [p, q])) || Cells(y, [p, q]) == [Val(1), Val(1)]
      requires forall row :: row in [x, y] && Full(Cells(row, [p, r])) ==> others != [] && Cells(row, [p, r]) == [Val(1), Val(1)]
      ensures Intact(Relations(), Tables([y, x], others)) && Intact(Relations(), Tables([x, y], others))
    {
      ReadB();
      hide RowA, RowB, Intact, Tables;
      assert [x, y][0] == [y, x][1] == x && [y, x][0] == [x, y][1] == y;
      assert others != [] ==> others[0] == RowB();
      StoreIsIntact([y, x], others);
      StoreIsIntact([x, y], others);
    }

    /** The same by the rows' cells: a pair with a NULL in it names nothing. */
    lemma CellsAreIntact(x2: Cell, y2: Cell, z2: Cell, x1: Cell, y1: Cell, z1: Cell, others: seq<Row>)
      requires Distinct() && (others == [] || others == [RowB()])
      requires Null in {x2, y2} || (x2 == Val(1) && y2 == Val(1))
      requires Null in {x1, y1} || (x1 == Val(1) && y1 == Val(2))
      requires Null in {x2, z2} || (others != [] && x2 == Val(1) && z2 == Val(1))
      requires Null in {x1, z1} || (others != [] && x1 == Val(1) && z1 == Val(1))
      ensures var y, x := RowA(2, x2, y2, z2), RowA(1, x1, y1, z1);
              Intact(Relations(), Tables([y, x], others)) && Intact(Relations(), Tables([x, y], others))
    {
      var y, x := RowA(2, x2, y2, z2), RowA(1, x1, y1, z1);
      ReadA(2, x2, y2, z2);
      ReadA(1, x1, y1, z1);
      hide RowA, RowB, Tables, Intact, Relations, Cells;
      PairIsIntact(y, x, others);
    }

    /** The archive is one a sound database exports. */
    lemma ArchiveIsSound()
      requires Distinct()
      ensures SoundArchive(Relations(), Archive())
    {
      var g, x, y := Relations(), RowA(1, Val(1), Val(2), Val(1)), RowA(2, Val(1), Val(1), Val(1));
      CellsAreIntact(Val(1), Val(1), Val(1), Val(1), Val(2), Val(1), [RowB()]);
      ArchiveIsWhole();
      hide RowA, RowB, Intact, Cells, UniqueIn, Tables, Full, NotNullHolds;
    }

    lemma ArchiveIsWhole()
      requires Distinct()
      ensures var g := Relations();
              && (forall t, i :: 0 <= i < |Table(Archive(), t)| ==>
                    Full(Cells(Table(Archive(), t)[i], g.Key(t))) && NotNullHolds(g, t, Table(Archive(), t)[i]))
              && (forall t :: g.Key(t) != [] ==> UniqueIn(Table(Archive(), t), g.Key(t)))
    {
      var g := Relations();
      ReadA(1, Val(1), Val(2), Val(1));
      ReadA(2, Val(1), Val(1), Val(1));
      ReadB();
      hide RowA, RowB, Cells;
      assert forall t :: t in Archive() ==> t in {a, b} && g.Key(t) == Key() && g.NotNull(t) == {};
    }

    lemma GoneInCycle()
      requires Distinct()
      ensures Gone([Deferral(1, Peer())], 1) == {p, q} && Gone([Deferral(1, Peer())], 0) == {} && Gone([], 1) == {}
    {
      var log := [Deferral(1, Peer())];
      assert log[0] == Deferral(1, Peer()) && p in Peer().cols && q in Peer().cols;
    }

    lemma EmptiedInCycle()
      requires Distinct()
      ensures var rows, made := Table(Archive(), a), Made();
              && |rows| == 2 && Emptied(rows, [], 1) == rows[1]
              && Emptied(rows, made.log, 1) == made.first[0] && Emptied(rows, made.log, 0) == made.first[1]
    {
      var rows, made := Table(Archive(), a), Made();
      GoneInCycle();
      hide Gone;
      SameRow(Emptied(rows, [], 1), rows[1]);
      SameRow(Emptied(rows, made.log, 1), made.first[0]);
      SameRow(Emptied(rows, made.log, 0), made.first[1]);
    }

    lemma ArrangedInCycle()
      requires Distinct()
      ensures Arranged(Relations(), Archive(), First(), Made())
    {
      var rows, made := Table(Archive(), a), Made();
      ReadA(1, Val(1), Val(2), Val(1));
      ReadA(2, Val(1), Val(1), Val(1));
      ReadA(2, Null, Null, Val(1));
      EmptiedInCycle();
      hide RowA, RowB, Emptied, Gone, Cells;
      assert made.log[..0] == [];
      assert LoggedAt(rows, Key(), [Peer()], made.selfRefs[0], made.log, 0);
      assert made.order[0] == 1 && made.order[1] == 0;
      RestorableInCycle(rows, made.first, made.selfRefs, made.log);
    }

    lemma RestorableInCycle(rows: seq<Row>, out: seq<Row>, refs: seq<DeferredRef>, log: seq<Deferral>)
      requires Distinct() && |rows| == |out| == 2 && Logged(rows, Key(), [Peer()], refs, log)
      requires out[0] == Emptied(rows, log, 1) && out[1] == Emptied(rows, log, 0)
      requires !Full(Cells(out[0], [p, q])) && Cells(out[1], [p, q]) == Cells(rows[1], Key())
      requires |log| == 1 && log[0].row == 1 && refs[0].vals == Cells(rows[0], Key())
      ensures Restorable(rows, Key(), [Peer()], [1, 0], log, out, refs)
    {
      hide Logged, Emptied, Cells, Full;
      var order: seq<nat> := [1, 0];
      assert order[0] == 1 && order[1] == 0;
      assert NamesEarlier(rows, Key(), order, 1, Cells(rows[order[0]], Key()));
      assert NamesLater(rows, Key(), order, 0, Cells(rows[order[1]], Key()));
    }

    lemma HeldColumnsAre(row: Row)
      requires Distinct() && At(row, r) != Null
      ensures HeldColumns(row, [Later()]) == {p, r} && IsSet(row, Later())
    {
      assert r in Later().cols && p in Later().cols && Later() in [Later()];
    }

    lemma HeldInCycle()
      requires Distinct()
      ensures HeldBack(Made().first, Key(), [Later()], Made().rows, Made().later)
      ensures HeldAt(First(), Made(), 0) == {p, r}
    {
      var made := Made();
      var y, x := made.first[0], made.first[1];
      ReadA(2, Null, Null, Val(1));
      ReadA(1, Val(1), Val(2), Val(1));
      HeldColumnsAre(y);
      HeldColumnsAre(x);
      SameRow(made.rows[0], Cleared(y, {p, r}));
      SameRow(made.rows[1], Cleared(x, {p, r}));
      hide RowA, RowB, HeldColumns, IsSet, Cells, Cleared;
      assert RefOf(y, Key(), Later()) == made.later[0] && RefOf(x, Key(), Later()) == made.later[1];
      HeldBackIs(made.first, made.rows, made.later);
    }

    lemma HeldBackIs(first: seq<Row>, rows: seq<Row>, later: seq<DeferredRef>)
      requires Distinct() && |first| == |rows| == |later| == 2
      requires forall k :: 0 <= k < 2 ==> IsSet(first[k], Later()) && rows[k] == Cleared(first[k], HeldColumns(first[k], [Later()]))
      requires forall k :: 0 <= k < 2 ==> later[k] == RefOf(first[k], Key(), Later())
      ensures HeldBack(first, Key(), [Later()], rows, later)
    {
      hide IsSet, HeldColumns, RefOf, Cells;
      assert [Later()][0] == Later();
      forall d | d in later ensures exists i, e :: 0 <= i < |first| && e in [Later()] && IsSet(first[i], e) && d == RefOf(first[i], Key(), e) {
        var k :| 0 <= k < 2 && later[k] == d;
        assert Later() in [Later()];
      }
    }

    lemma CanBeHeld()
      requires Distinct()
      ensures !CannotBeHeld(Relations(), First(), Made())
    {
      ReadA(2, Null, Null, Val(1));
      ReadA(1, Val(1), Val(2), Val(1));
      hide RowA, RowB, IsSet, Cells;
      assert forall c :: c in Later().cols ==> c in {p, r} && c !in Key();
    }

    lemma WrittenWhole()
      requires Distinct()
      ensures Whole(Relations(), a, Made().rows)
    {
      ReadA(2, Null, Null, Null);
      ReadA(1, Null, Val(2), Null);
      hide RowA, Cells;
    }

    /** The source is accepted, though its second row loses `p` both ways. */
    lemma CycleIsAccepted()
      requires Distinct()
      ensures Held(Relations(), Archive(), First(), Made()) && Accepted(Relations(), First(), Made()) && !Apart(First(), Made())
    {
      ArrangedInCycle();
      HeldInCycle();
      CanBeHeld();
      WrittenWhole();
      LastColumnStays();
      SharedColumnMeets();
      hide Made, Archive, Relations, Key, Arranged, HeldBack, CannotBeHeld, Whole, Early, Apart;
    }

    lemma FirstRowGone()
      requires Distinct()
      ensures p in GoneAt(Made(), 0)
    {
      GoneInCycle();
      hide Gone, RowA, RowB;
      assert Made().order[0] == 1;
    }

    /** Row 2 of `a`, written first, loses `p` to its self-reference and to the one held for `b`. */
    lemma SharedColumnMeets()
      requires Distinct()
      ensures !Apart(First(), Made())
    {
      HeldInCycle();
      FirstRowGone();
      hide GoneAt, HeldAt, HeldBack, RowA, RowB;
      assert p in GoneAt(Made(), 0) && p in HeldAt(First(), Made(), 0);
    }

    lemma LastColumnStays()
      requires Distinct()
      ensures !Early(First(), Made())
    {
      GoneInCycle();
      hide Gone, RowA, RowB;
      var made := Made();
      assert made.order[0] == 1 && made.order[1] == 0;
      forall k, e | 0 <= k < |made.order| && e in First().laterRefs ensures !(Columns(e.cols) <= GoneAt(made, k)) {
        assert e == Later() && r in Columns(e.cols) && r !in {p, q} && GoneAt(made, k) <= {p, q};
      }
    }

    // ---- The statements ------------------------------------------------------

    lemma Put(rows: seq<Row>, others: seq<Row>, more: seq<Row>)
      requires Distinct()
      ensures Table(Tables(rows, others), a) == rows && Table(Tables(rows, others), b) == others
      ensures Tables(rows, others)[a := more] == Tables(more, others) && Tables(rows, others)[b := more] == Tables(rows, more)
    {
    }

    lemma AnyRow(row: Row)
      ensures NotNullHolds(Relations(), a, row) && NotNullHolds(Relations(), b, row)
    {
    }

    /** Both rows of `a` go in, without the references deferred or held of them. */
    lemma Inserted()
      requires Distinct()
      ensures var y, x := RowA(2, Null, Null, Null), RowA(1, Null, Val(2), Null);
              && ImportModel.Insert(Relations(), Tables([], []), a, y) == Ok(Tables([y], []))
              && ImportModel.Insert(Relations(), Tables([y], []), a, x) == Ok(Tables([y, x], []))
    {
      var y, x := RowA(2, Null, Null, Null), RowA(1, Null, Val(2), Null);
      ReadA(2, Null, Null, Null);
      ReadA(1, Null, Val(2), Null);
      StoreIsIntact([y], []);
      CellsAreIntact(Null, Null, Null, Null, Val(2), Null, []);
      Put([], [], [y]);
      Put([y], [], [y, x]);
      AnyRow(y);
      AnyRow(x);
      hide RowA, Tables, Intact, NotNullHolds, Cells;
      assert [] + [y] == [y] && [y] + [x] == [y, x];
    }

    /** One update, reaching one of the two rows by its key. */
    lemma UpdateOne(rows: seq<Row>, others: seq<Row>, v: nat, cols: seq<string>, vals: seq<Cell>, k: nat, row: Row)
      requires Distinct() && |rows| == 2 && k < 2 && |cols| == |vals|
      requires Cells(rows[k], Key()) == [Val(1), Val(v)] != Cells(rows[1 - k], Key()) && row == Assign(rows[k], cols, vals)
      requires Intact(Relations(), Tables(rows[k := row], others))
      ensures Update(Relations(), Tables(rows, others), a, DeferredRef([Val(1), Val(v)], cols, vals)) == Ok(Tables(rows[k := row], others))
    {
      var g, d := Relations(), DeferredRef([Val(1), Val(v)], cols, vals);
      Put(rows, others, rows[k := row]);
      hide Tables, Intact, Assign, NotNullHolds, Cells;
      assert Hits(g, a, rows, d) == {k};
      assert Updated(g, a, rows, d) == rows[k := row];
      AnyRow(rows[k := row][0]);
      AnyRow(rows[k := row][1]);
    }

    lemma AssignPeer(v: nat, x: Cell, y: Cell, z: Cell, x': Cell, y': Cell)
      requires Distinct()
      ensures Assign(RowA(v, x, y, z), [p, q], [x', y']) == RowA(v, x', y', z)
    {
      assert ValueFor([p, q], [x', y'], p) == x' && ValueFor([p, q], [x', y'], q) == y';
    }

    lemma AssignLater(v: nat, x: Cell, y: Cell, z: Cell, x': Cell, z': Cell)
      requires Distinct()
      ensures Assign(RowA(v, x, y, z), [p, r], [x', z']) == RowA(v, x', y, z')
    {
      assert ValueFor([p, r], [x', z'], p) == x' && ValueFor([p, r], [x', z'], r) == z';
    }

    /** The self-reference goes back in. */
    lemma SelfSet()
      requires Distinct()
      ensures Update(Relations(), Tables([RowA(2, Null, Null, Null), RowA(1, Null, Val(2), Null)], []), a, DeferredRef([Val(1), Val(2)], [p, q], [Val(1), Val(1)]))
                == Ok(Tables([RowA(2, Val(1), Val(1), Null), RowA(1, Null, Val(2), Null)], []))
    {
      var y, x, y' := RowA(2, Null, Null, Null), RowA(1, Null, Val(2), Null), RowA(2, Val(1), Val(1), Null);
      ReadA(2, Null, Null, Null);
      ReadA(1, Null, Val(2), Null);
      AssignPeer(2, Null, Null, Null, Val(1), Val(1));
      hide *;
      CellsAreIntact(Val(1), Val(1), Null, Null, Val(2), Null, []);
      assert [y, x][0 := y'] == [y', x];
      UpdateOne([y, x], [], 2, [p, q], [Val(1), Val(1)], 0, y');
    }

    /** The row of `b` goes in. */
    lemma OtherInserted()
      requires Distinct()
      ensures var rows := [RowA(2, Val(1), Val(1), Null), RowA(1, Null, Val(2), Null)];
              ImportModel.Insert(Relations(), Tables(rows, []), b, RowB()) == Ok(Tables(rows, [RowB()]))
    {
      var x, y' := RowA(1, Null, Val(2), Null), RowA(2, Val(1), Val(1), Null);
      CellsAreIntact(Val(1), Val(1), Null, Null, Val(2), Null, [RowB()]);
      Put([y', x], [], [RowB()]);
      AnyRow(RowB());
      hide RowA, RowB, Tables, Intact, Cells, NotNullHolds;
      assert [] + [RowB()] == [RowB()];
    }

    /** The first reference held for `b` is set, and empties `p` again. */
    lemma FirstHeldSet()
      requires Distinct()
      ensures Update(Relations(), Tables([RowA(2, Val(1), Val(1), Null), RowA(1, Null, Val(2), Null)], [RowB()]), a, DeferredRef([Val(1), Val(2)], [p, r], [Null, Val(1)]))
                == Ok(Tables([RowA(2, Null, Val(1), Val(1)), RowA(1, Null, Val(2), Null)], [RowB()]))
    {
      var x, y, y' := RowA(1, Null, Val(2), Null), RowA(2, Val(1), Val(1), Null), RowA(2, Null, Val(1), Val(1));
      ReadA(1, Null, Val(2), Null);
      ReadA(2, Val(1), Val(1), Null);
      AssignLater(2, Val(1), Val(1), Null, Null, Val(1));
      hide *;
      CellsAreIntact(Null, Val(1), Val(1), Null, Val(2), Null, [RowB()]);
      assert [y, x][0 := y'] == [y', x];
      UpdateOne([y, x], [RowB()], 2, [p, r], [Null, Val(1)], 0, y');
    }

    lemma SecondHeldSet()
      requires Distinct()
      ensures Update(Relations(), Tables([RowA(2, Null, Val(1), Val(1)), RowA(1, Null, Val(2), Null)], [RowB()]), a, DeferredRef([Val(1), Val(1)], [p, r], [Val(1), Val(1)]))
                == Ok(Tables([RowA(2, Null, Val(1), Val(1)), RowA(1, Val(1), Val(2), Val(1))], [RowB()]))
    {
      var x, y', x' := RowA(1, Null, Val(2), Null), RowA(2, Null, Val(1), Val(1)), RowA(1, Val(1), Val(2), Val(1));
      ReadA(1, Null, Val(2), Null);
      ReadA(2, Null, Val(1), Val(1));
      AssignLater(1, Null, Val(2), Null, Val(1), Val(1));
      hide *;
      CellsAreIntact(Null, Val(1), Val(1), Val(1), Val(2), Val(1), [RowB()]);
      assert [y', x][1 := x'] == [y', x'];
      UpdateOne([y', x], [RowB()], 1, [p, r], [Val(1), Val(1)], 1, x');
    }

    /** Table `a` is left without the value its second row had in `p`. */
    lemma ComesBackShort()
      requires Distinct()
      ensures multiset([RowA(2, Null, Val(1), Val(1)), RowA(1, Val(1), Val(2), Val(1))]) != multiset(Table(Archive(), a))
    {
      var y, y', x := RowA(2, Val(1), Val(1), Val(1)), RowA(2, Null, Val(1), Val(1)), RowA(1, Val(1), Val(2), Val(1));
      ReadA(2, Val(1), Val(1), Val(1));
      ReadA(2, Null, Val(1), Val(1));
      ReadA(1, Val(1), Val(2), Val(1));
      assert y' !in multiset([x, y]) && y' in multiset([y', x]);
    }

    lemma MadeOf()
      ensures Made().rows == [RowA(2, Null, Null, Null), RowA(1, Null, Val(2), Null)]
      ensures Made().selfRefs == [DeferredRef([Val(1), Val(2)], [p, q], [Val(1), Val(1)])]
      ensures Made().later == [DeferredRef([Val(1), Val(2)], [p, r], [Null, Val(1)]), DeferredRef([Val(1), Val(1)], [p, r], [Val(1), Val(1)])]
    {
    }

    lemma ApplyOne(s: Store, t: string, d: DeferredRef, s': Store)
      requires |d.cols| == |d.vals| && Update(Relations(), s, t, d) == Ok(s')
      ensures Shaped([d]) && ApplyAll(Relations(), s, t, [d]) == Ok(s')
    {
    }

    lemma ApplyTwo(s: Store, t: string, d: DeferredRef, e: DeferredRef, s1: Store, s2: Store)
      requires |d.cols| == |d.vals| && |e.cols| == |e.vals|
      requires Update(Relations(), s, t, d) == Ok(s1) && Update(Relations(), s1, t, e) == Ok(s2)
      ensures Shaped([d, e]) && ApplyAll(Relations(), s, t, [d, e]) == Ok(s2)
    {
      ApplyOne(s1, t, e, s2);
      assert [d, e][1..] == [e];
    }

    /**
    The restore of the archive, statement by statement: every INSERT and UPDATE
    goes through, and table `a` is left with its second row's `p` empty.
    */
    lemma ComesBackWrong()
      requires Distinct()
      ensures SoundArchive(Relations(), Archive()) && Held(Relations(), Archive(), First(), Made())
      ensures var y, x := Made().rows[0], Made().rows[1];
              var midway, last := [RowA(2, Val(1), Val(1), Null), x], [RowA(2, Null, Val(1), Val(1)), RowA(1, Val(1), Val(2), Val(1))];
              && ImportModel.Insert(Relations(), Tables([], []), a, y) == Ok(Tables([y], []))
              && ImportModel.Insert(Relations(), Tables([y], []), a, x) == Ok(Tables([y, x], []))
              && Shaped(Made().selfRefs) && ApplyAll(Relations(), Tables([y, x], []), a, Made().selfRefs) == Ok(Tables(midway, []))
              && ImportModel.Insert(Relations(), Tables(midway, []), b, RowB()) == Ok(Tables(midway, [RowB()]))
              && Shaped(Made().later) && ApplyAll(Relations(), Tables(midway, [RowB()]), a, Made().later) == Ok(Tables(last, [RowB()]))
              && multiset(last) != multiset(Table(Archive(), a))
    {
      hide *;
      MadeOf();
      ArchiveIsSound();
      CycleIsAccepted();
      Inserted();
      SelfSet();
      OtherInserted();
      FirstHeldSet();
      SecondHeldSet();
      ComesBackShort();
      var y, x := RowA(2, Null, Null, Null), RowA(1, Null, Val(2), Null);
      var midway, next := [RowA(2, Val(1), Val(1), Null), x], [RowA(2, Null, Val(1), Val(1)), x];
      ApplyOne(Tables([y, x], []), a, DeferredRef([Val(1), Val(2)], [p, q], [Val(1), Val(1)]), Tables(midway, []));
      ApplyTwo(Tables(midway, [RowB()]), a, DeferredRef([Val(1), Val(2)], [p, r], [Null, Val(1)]), DeferredRef([Val(1), Val(1)], [p, r], [Val(1), Val(1)]),
               Tables(next, [RowB()]), Tables([next[0], RowA(1, Val(1), Val(2), Val(1))], [RowB()]));
    }
  }
}
