/**
`parentRowsFirst`: the order a self-referencing table's rows are restored in.
Each row follows the rows its own foreign keys name; a reference that closes a
cycle of rows is emptied and handed back to be set afterwards.
*/
module RowOrder {
  import opened Relational

  /** A reference kept out of its row's INSERT: the row's key, the columns and their values. */
  datatype DeferredRef = DeferredRef(key: seq<Cell>, cols: seq<string>, vals: seq<Cell>)

  datatype Mark = Unvisited | InProgress | Done

  /** One deferral: the reference `edge` of the row at `row`. */
  datatype Deferral = Deferral(row: nat, edge: Edge)

  /** A reference as it is read off a row. */
  function RefOf(row: Row, key: seq<string>, e: Edge): DeferredRef {
    DeferredRef(Cells(row, key), e.cols, Cells(row, e.cols))
  }

  /** The columns that deferrals have emptied in row `i`. */
  ghost function Gone(log: seq<Deferral>, i: nat): set<string> {
    set p, c | 0 <= p < |log| && log[p].row == i && c in log[p].edge.cols :: c
  }

  /** The copy of row `i` that is left after these deferrals. */
  ghost function Emptied(rows: seq<Row>, log: seq<Deferral>, i: nat): Row
    requires i < |rows|
  {
    Cleared(rows[i], Gone(log, i))
  }

  /** The row the key names, if any; later rows win, as they do in a Go map. */
  ghost predicate Indexes(rows: seq<Row>, key: seq<string>, index: map<seq<Cell>, nat>) {
    && (forall ks :: ks in index ==> index[ks] < |rows| && Cells(rows[index[ks]], key) == ks && Full(ks))
    && (forall i :: 0 <= i < |rows| && Full(Cells(rows[i], key)) ==> Cells(rows[i], key) in index)
  }

  method BuildIndex(rows: seq<Row>, key: seq<string>) returns (index: map<seq<Cell>, nat>)
    ensures Indexes(rows, key, index)
  {
    index := map[];
    for i := 0 to |rows|
      invariant forall ks :: ks in index ==> index[ks] < i && Cells(rows[index[ks]], key) == ks && Full(ks)
      invariant forall j :: 0 <= j < i && Full(Cells(rows[j], key)) ==> Cells(rows[j], key) in index
    {
      var ks := Cells(rows[i], key);
      if Full(ks) {
        index := index[ks := i];
      }
    }
  }

  /** What the reference names is not in the archive, is the row itself, or is already out. */
  ghost predicate InPlace(index: map<seq<Cell>, nat>, order: seq<nat>, self: nat, ks: seq<Cell>) {
    ks !in index || index[ks] == self || index[ks] in order
  }

  /** The deferred references are those of the log, each read off its row as the earlier deferrals had left it. */
  ghost predicate Logged(rows: seq<Row>, key: seq<string>, refs: seq<Edge>, deferred: seq<DeferredRef>, log: seq<Deferral>) {
    && |log| == |deferred|
    && (forall p :: 0 <= p < |log| ==> LoggedAt(rows, key, refs, deferred[p], log, p))
  }

  ghost predicate LoggedAt(rows: seq<Row>, key: seq<string>, refs: seq<Edge>, ref: DeferredRef, log: seq<Deferral>, p: nat)
    requires p < |log|
  {
    var i, e := log[p].row, log[p].edge;
    i < |rows| && e in refs && ref == RefOf(Emptied(rows, log[..p], i), key, e) && Full(ref.vals)
  }

  lemma LogGrows(rows: seq<Row>, key: seq<string>, refs: seq<Edge>, deferred: seq<DeferredRef>, log: seq<Deferral>, i: nat, e: Edge)
    requires Logged(rows, key, refs, deferred, log) && i < |rows| && e in refs && Full(Cells(Emptied(rows, log, i), e.cols))
    ensures Logged(rows, key, refs, deferred + [RefOf(Emptied(rows, log, i), key, e)], log + [Deferral(i, e)])
  {
    var more := log + [Deferral(i, e)];
    assert more[..|log|] == log;
    forall p | 0 <= p < |log| ensures LoggedAt(rows, key, refs, deferred[p], more, p) {
      assert more[..p] == log[..p];
      assert LoggedAt(rows, key, refs, deferred[p], log, p);
    }
  }

  lemma GoneGrows(rows: seq<Row>, log: seq<Deferral>, i: nat, e: Edge)
    requires i < |rows|
    ensures forall j :: Gone(log + [Deferral(i, e)], j) == if j == i then Gone(log, i) + Columns(e.cols) else Gone(log, j)
    ensures Emptied(rows, log + [Deferral(i, e)], i) == Cleared(Emptied(rows, log, i), Columns(e.cols))
  {
    var more := log + [Deferral(i, e)];
    forall j ensures Gone(more, j) == if j == i then Gone(log, i) + Columns(e.cols) else Gone(log, j) {
      assert more[|log|] == Deferral(i, e);
      forall c ensures c in Gone(more, j) <==> c in Gone(log, j) || (j == i && c in e.cols) {
        if c in Gone(log, j) {
          var p :| 0 <= p < |log| && log[p].row == j && c in log[p].edge.cols;
          assert more[p] == log[p];
        }
      }
    }
  }

  lemma NoneGone(log: seq<Deferral>, i: nat)
    requires forall p :: 0 <= p < |log| ==> log[p].row != i
    ensures Gone(log, i) == {}
  {
  }

  /** Deferrals of other rows leave this one's copy as it is. */
  lemma GoneStays(log: seq<Deferral>, more: seq<Deferral>, i: nat)
    requires log <= more && forall p :: |log| <= p < |more| ==> more[p].row != i
    ensures Gone(more, i) == Gone(log, i)
  {
    forall c ensures c in Gone(more, i) <==> c in Gone(log, i) {
      if c in Gone(log, i) {
        var p :| 0 <= p < |log| && log[p].row == i && c in log[p].edge.cols;
        assert more[p] == log[p];
      }
      if c in Gone(more, i) {
        var p :| 0 <= p < |more| && more[p].row == i && c in more[p].edge.cols;
        assert log[p] == more[p];
      }
    }
  }

  /** New deferrals are of rows the traversal had not reached. */
  ghost predicate OthersOnly(state: seq<Mark>, log: seq<Deferral>, more: seq<Deferral>, i: int) {
    && log <= more
    && forall p :: |log| <= p < |more| ==> more[p].row == i || (more[p].row < |state| && state[more[p].row].Unvisited?)
  }

  lemma NoOthers(state: seq<Mark>, log: seq<Deferral>, i: nat)
    ensures OthersOnly(state, log, log, i)
  {
  }

  lemma OthersAndOwn(state: seq<Mark>, log0: seq<Deferral>, log: seq<Deferral>, i: nat, e: Edge)
    requires OthersOnly(state, log0, log, i)
    ensures OthersOnly(state, log0, log + [Deferral(i, e)], i)
  {
  }

  lemma OthersChain(state: seq<Mark>, state1: seq<Mark>, log0: seq<Deferral>, log1: seq<Deferral>, log: seq<Deferral>, i: nat)
    requires OthersOnly(state, log0, log1, i) && Later(state, state1) && OthersOnly(state1, log1, log, -1)
    requires i < |state1| && state1[i].InProgress?
    ensures OthersOnly(state, log0, log, i) && Gone(log, i) == Gone(log1, i)
  {
    GoneStays(log1, log, i);
  }

  /** Each reference deferred names another row, which is still open as long as its own is. */
  ghost predicate Forced(index: map<seq<Cell>, nat>, state: seq<Mark>, order: seq<nat>, deferred: seq<DeferredRef>, log: seq<Deferral>)
    requires |deferred| == |log|
  {
    forall p :: 0 <= p < |log| ==> ForcedAt(index, state, order, deferred[p].vals, log[p].row)
  }

  ghost predicate ForcedAt(index: map<seq<Cell>, nat>, state: seq<Mark>, order: seq<nat>, vals: seq<Cell>, i: nat) {
    && vals in index && index[vals] < |state| && i < |state| && index[vals] != i && !state[i].Unvisited?
    && (state[i].InProgress? ==> state[index[vals]].InProgress?)
    && (forall k :: 0 <= k < |order| && order[k] == i ==> index[vals] !in order[..k])
  }

  /** The traversal of one table's rows. */
  class RowTraversal {
    const rows: seq<Row>
    const key: seq<string>
    const refs: seq<Edge>
    const index: map<seq<Cell>, nat>
    var state: seq<Mark>
    var out: seq<Row>
    var deferred: seq<DeferredRef>
    ghost var order: seq<nat>
    ghost var log: seq<Deferral>

    constructor (rows: seq<Row>, key: seq<string>, refs: seq<Edge>, index: map<seq<Cell>, nat>)
      requires Indexes(rows, key, index) && forall e :: e in refs ==> e.cols != []
      ensures Valid() && this.rows == rows && this.key == key && this.refs == refs && this.index == index
      ensures forall i :: 0 <= i < |rows| ==> state[i].Unvisited?
    {
      this.rows, this.key, this.refs, this.index := rows, key, refs, index;
      state := seq(|rows|, i => Unvisited);
      out, deferred, order, log := [], [], [], [];
    }

    /** The rows already out, each less what was deferred of it and each reference left in it satisfied before it. */
    ghost predicate Valid()
      reads this
    {
      && Indexes(rows, key, index) && (forall e :: e in refs ==> e.cols != [])
      && |state| == |rows| && |out| == |order| && |deferred| == |log|
      && Listed(state, order)
      && Logged(rows, key, refs, deferred, log) && Forced(index, state, order, deferred, log)
      && OutSound(rows, refs, index, order, out, log)
    }

    method Visit(i: nat)
      requires Valid() && i < |rows|
      modifies this`state, this`out, this`deferred, this`order, this`log
      ensures Valid() && Later(old(state), state) && !state[i].Unvisited?
      ensures old(order) <= order && old(deferred) <= deferred && OthersOnly(old(state), old(log), log, -1)
      decreases UnvisitedSet(state), 0
    {
      hide Logged, Forced, OutSound, Indexes, Listed, Gone, UnvisitedSet, InPlace;
      if !state[i].Unvisited? {
        return;
      }
      ghost var before := state;
      OpenKeeps(state, order, i);
      OpenForced(index, state, order, deferred, log, i);
      state := state[i := InProgress];
      UnvisitedShrinks(before, i);
      var row := Follow(i);
      CloseKeeps(state, order, i);
      CloseForced(index, before, old(log), old(deferred), old(order), state, order, deferred, log, i);
      OutGrows(rows, refs, index, order, out, log, i, row);
      state := state[i := Done];
      out := out + [row];
      order := order + [i];
    }

    /** The loop over the row's own references; the row comes back without those that close a cycle. */
    method Follow(i: nat) returns (row: Row)
      requires Valid() && i < |rows| && state[i].InProgress? && forall p :: 0 <= p < |log| ==> log[p].row != i
      modifies this`state, this`out, this`deferred, this`order, this`log
      ensures Valid() && Later(old(state), state) && state[i].InProgress?
      ensures old(order) <= order && old(deferred) <= deferred && OthersOnly(old(state), old(log), log, i)
      ensures row == Emptied(rows, log, i)
      ensures forall e :: e in refs && Full(Cells(row, e.cols)) ==> InPlace(index, order, i, Cells(row, e.cols))
      decreases UnvisitedSet(state), 1
    {
      hide Forced, OutSound, Gone, UnvisitedSet, Logged, OthersOnly, KeptInPlace;
      row := rows[i];
      NoneGone(log, i);
      NoOthers(state, log, i);
      NothingKept(index, order, i, row, refs);
      for k := 0 to |refs|
        invariant Valid() && Later(old(state), state) && state[i].InProgress?
        invariant old(order) <= order && old(deferred) <= deferred && OthersOnly(old(state), old(log), log, i)
        invariant row == Emptied(rows, log, i)
        invariant KeptInPlace(index, order, i, row, refs, k)
      {
        var e := refs[k];
        var ks := Cells(row, e.cols);
        if !Full(ks) || ks !in index || index[ks] == i {
          KeptOneMore(index, order, i, row, refs, k);
          continue;
        }
        var j := index[ks];
        if state[j].InProgress? {
          LogGrows(rows, key, refs, deferred, log, i, e);
          GoneGrows(rows, log, i, e);
          OthersAndOwn(old(state), old(log), log, i, e);
          OutStays(rows, refs, index, state, order, out, log, i, e);
          ForcedGrows(index, state, order, deferred, log, RefOf(row, key, e), Deferral(i, e));
          ClearedStays(index, order, i, row, refs, k);
          deferred := deferred + [RefOf(row, key, e)];
          log := log + [Deferral(i, e)];
          row := Cleared(row, Columns(e.cols));
          continue;
        }
        ghost var order0, log0, state0 := order, log, state;
        LaterShrinks(old(state), state);
        Visit(j);
        DoneIsOut(state0, state, order, j);
        OthersChain(old(state), state0, old(log), log0, log, i);
        InPlaceGrows(index, order0, order, i, row, refs, k);
      }
      EveryKept(index, order, i, row, refs);
    }
  }

  // ---- The traversal state -------------------------------------------------

  ghost function UnvisitedSet(state: seq<Mark>): set<nat> {
    set i | 0 <= i < |state| && state[i].Unvisited?
  }

  /** Exactly the rows marked done are out, each once. */
  ghost predicate Listed(state: seq<Mark>, order: seq<nat>) {
    && (forall k :: 0 <= k < |order| ==> order[k] < |state|)
    && (forall j, k :: 0 <= j < k < |order| ==> order[j] != order[k])
    && (forall i :: 0 <= i < |state| ==> (state[i].Done? <==> i in order))
  }

  /** A row never becomes unvisited again, and one in progress stays so until its own visit ends. */
  ghost predicate Later(state: seq<Mark>, state': seq<Mark>) {
    |state'| == |state| && forall i :: 0 <= i < |state| ==>
      (!state[i].Unvisited? ==> state'[i] == state[i]) && (state'[i].InProgress? ==> state[i].InProgress?)
  }

  lemma LaterShrinks(state: seq<Mark>, state': seq<Mark>)
    requires Later(state, state')
    ensures UnvisitedSet(state') <= UnvisitedSet(state)
  {
  }

  lemma UnvisitedShrinks(state: seq<Mark>, i: nat)
    requires i < |state| && state[i].Unvisited?
    ensures UnvisitedSet(state[i := InProgress]) < UnvisitedSet(state)
  {
    assert i in UnvisitedSet(state) && i !in UnvisitedSet(state[i := InProgress]);
  }

  lemma OpenKeeps(state: seq<Mark>, order: seq<nat>, i: nat)
    requires Listed(state, order) && i < |state| && state[i].Unvisited?
    ensures Listed(state[i := InProgress], order)
  {
  }

  lemma CloseKeeps(state: seq<Mark>, order: seq<nat>, i: nat)
    requires Listed(state, order) && i < |state| && state[i].InProgress?
    ensures Listed(state[i := Done], order + [i])
  {
  }

  lemma DoneIsOut(state: seq<Mark>, state': seq<Mark>, order: seq<nat>, j: nat)
    requires Later(state, state') && Listed(state', order) && j < |state|
    requires !state[j].InProgress? && !state'[j].Unvisited?
    ensures j in order
  {
  }

  lemma OpenForced(index: map<seq<Cell>, nat>, state: seq<Mark>, order: seq<nat>, deferred: seq<DeferredRef>, log: seq<Deferral>, i: nat)
    requires |deferred| == |log| && Forced(index, state, order, deferred, log) && i < |state| && state[i].Unvisited?
    ensures Forced(index, state[i := InProgress], order, deferred, log)
    ensures forall p :: 0 <= p < |log| ==> log[p].row != i
  {
    forall p | 0 <= p < |log| ensures ForcedAt(index, state[i := InProgress], order, deferred[p].vals, log[p].row) && log[p].row != i {
      assert ForcedAt(index, state, order, deferred[p].vals, log[p].row);
    }
  }

  lemma ForcedGrows(index: map<seq<Cell>, nat>, state: seq<Mark>, order: seq<nat>, deferred: seq<DeferredRef>, log: seq<Deferral>, ref: DeferredRef, more: Deferral)
    requires |deferred| == |log| && Forced(index, state, order, deferred, log) && ForcedAt(index, state, order, ref.vals, more.row)
    ensures Forced(index, state, order, deferred + [ref], log + [more])
  {
  }

  /** The row a deferral names was open before its own was, so it closes after it. */
  lemma CloseForced(index: map<seq<Cell>, nat>, before: seq<Mark>, log0: seq<Deferral>, deferred0: seq<DeferredRef>, order0: seq<nat>,
                    state: seq<Mark>, order: seq<nat>, deferred: seq<DeferredRef>, log: seq<Deferral>, i: nat)
    requires |deferred0| == |log0| && Forced(index, before, order0, deferred0, log0) && deferred0 <= deferred
    requires |deferred| == |log| && Forced(index, state, order, deferred, log)
    requires i < |before| && before[i].Unvisited? && Later(before[i := InProgress], state) && state[i].InProgress?
    requires OthersOnly(before[i := InProgress], log0, log, i) && Listed(state, order)
    ensures Forced(index, state[i := Done], order + [i], deferred, log)
  {
    forall p | 0 <= p < |log| ensures ForcedAt(index, state[i := Done], order + [i], deferred[p].vals, log[p].row) {
      var x, j := log[p].row, index[deferred[p].vals];
      assert ForcedAt(index, state, order, deferred[p].vals, x);
      if x != i && state[x].InProgress? {
        assert p < |log0| && log0[p] == log[p];
        assert ForcedAt(index, before, order0, deferred0[p].vals, x);
        assert deferred0[p] == deferred[p];
      }
      forall k | 0 <= k < |order| + 1 && (order + [i])[k] == x ensures j !in (order + [i])[..k] {
        assert (order + [i])[..k] == if k < |order| then order[..k] else order;
      }
    }
  }

  // ---- What is out ---------------------------------------------------------

  /** The row at position `k` of the output. */
  ghost predicate OutRow(rows: seq<Row>, refs: seq<Edge>, index: map<seq<Cell>, nat>, order: seq<nat>, row: Row, log: seq<Deferral>, i: nat) {
    && i < |rows| && row == Emptied(rows, log, i)
    && (forall e :: e in refs && Full(Cells(row, e.cols)) ==> InPlace(index, order, i, Cells(row, e.cols)))
  }

  ghost predicate OutSound(rows: seq<Row>, refs: seq<Edge>, index: map<seq<Cell>, nat>, order: seq<nat>, out: seq<Row>, log: seq<Deferral>)
    requires |out| == |order|
  {
    forall k :: 0 <= k < |out| ==> OutRow(rows, refs, index, order[..k], out[k], log, order[k])
  }

  /** The first `k` references, where still in the row, are in place. */
  ghost predicate KeptInPlace(index: map<seq<Cell>, nat>, order: seq<nat>, i: nat, row: Row, refs: seq<Edge>, k: nat)
    requires k <= |refs|
  {
    forall j :: 0 <= j < k && Full(Cells(row, refs[j].cols)) ==> InPlace(index, order, i, Cells(row, refs[j].cols))
  }

  lemma NothingKept(index: map<seq<Cell>, nat>, order: seq<nat>, i: nat, row: Row, refs: seq<Edge>)
    ensures KeptInPlace(index, order, i, row, refs, 0)
  {
  }

  lemma KeptOneMore(index: map<seq<Cell>, nat>, order: seq<nat>, i: nat, row: Row, refs: seq<Edge>, k: nat)
    requires k < |refs| && KeptInPlace(index, order, i, row, refs, k)
    requires Full(Cells(row, refs[k].cols)) ==> InPlace(index, order, i, Cells(row, refs[k].cols))
    ensures KeptInPlace(index, order, i, row, refs, k + 1)
  {
  }

  lemma EveryKept(index: map<seq<Cell>, nat>, order: seq<nat>, i: nat, row: Row, refs: seq<Edge>)
    requires KeptInPlace(index, order, i, row, refs, |refs|)
    ensures forall e :: e in refs && Full(Cells(row, e.cols)) ==> InPlace(index, order, i, Cells(row, e.cols))
  {
  }

  lemma InPlaceGrows(index: map<seq<Cell>, nat>, order: seq<nat>, more: seq<nat>, i: nat, row: Row, refs: seq<Edge>, k: nat)
    requires order <= more && k < |refs|
    requires KeptInPlace(index, order, i, row, refs, k) && InPlace(index, more, i, Cells(row, refs[k].cols))
    ensures KeptInPlace(index, more, i, row, refs, k + 1)
  {
    assert forall x :: x in order ==> x in more;
  }

  lemma OutGrows(rows: seq<Row>, refs: seq<Edge>, index: map<seq<Cell>, nat>, order: seq<nat>, out: seq<Row>, log: seq<Deferral>, i: nat, row: Row)
    requires |out| == |order| && OutSound(rows, refs, index, order, out, log)
    requires OutRow(rows, refs, index, order, row, log, i)
    ensures OutSound(rows, refs, index, order + [i], out + [row], log)
  {
    forall k | 0 <= k < |out| + 1
      ensures OutRow(rows, refs, index, (order + [i])[..k], (out + [row])[k], log, (order + [i])[k])
    {
      assert (order + [i])[..k] == if k < |order| then order[..k] else order;
    }
  }

  /** Deferring a reference of an open row changes no row already out. */
  lemma OutStays(rows: seq<Row>, refs: seq<Edge>, index: map<seq<Cell>, nat>, state: seq<Mark>, order: seq<nat>, out: seq<Row>, log: seq<Deferral>, i: nat, e: Edge)
    requires |out| == |order| && OutSound(rows, refs, index, order, out, log)
    requires i < |rows| && |state| == |rows| && Listed(state, order) && state[i].InProgress?
    ensures OutSound(rows, refs, index, order, out, log + [Deferral(i, e)])
  {
    GoneGrows(rows, log, i, e);
    forall k | 0 <= k < |out| ensures OutRow(rows, refs, index, order[..k], out[k], log + [Deferral(i, e)], order[k]) {
      assert OutRow(rows, refs, index, order[..k], out[k], log, order[k]);
      assert order[k] in order;
    }
  }

  /** Clearing a reference leaves the others in place or empties them too. */
  lemma ClearedStays(index: map<seq<Cell>, nat>, order: seq<nat>, i: nat, row: Row, refs: seq<Edge>, k: nat)
    requires k < |refs| && refs[k].cols != []
    requires KeptInPlace(index, order, i, row, refs, k)
    ensures KeptInPlace(index, order, i, Cleared(row, Columns(refs[k].cols)), refs, k + 1)
  {
    var row' := Cleared(row, Columns(refs[k].cols));
    forall j | 0 <= j < k + 1 && Full(Cells(row', refs[j].cols)) ensures InPlace(index, order, i, Cells(row', refs[j].cols)) {
      MasksKeepFullCells(row, row', refs[j].cols);
      assert Cells(row', refs[k].cols)[0] == At(row', refs[k].cols[0]) == Null;
      assert j < k;
    }
  }

  /** `order` lists every index below `n` once. */
  ghost predicate Permutes(order: seq<nat>, n: nat) {
    && (forall k :: 0 <= k < |order| ==> order[k] < n)
    && (forall j, k :: 0 <= j < k < |order| ==> order[j] != order[k])
    && (forall i :: 0 <= i < n ==> i in order)
  }

  /**
  The output is the rows in another order, each whole except for the references
  deferred of it. A reference left in it names a row already out, the row
  itself, or no row of the archive; one deferred of it names a row still to come.
  */
  ghost predicate Restorable(rows: seq<Row>, key: seq<string>, refs: seq<Edge>, order: seq<nat>, log: seq<Deferral>, out: seq<Row>, deferred: seq<DeferredRef>) {
    && Permutes(order, |rows|) && |order| == |out| == |rows|
    && Logged(rows, key, refs, deferred, log)
    && (forall k :: 0 <= k < |out| ==> out[k] == Emptied(rows, log, order[k]))
    && (forall k, e :: 0 <= k < |out| && e in refs && Full(Cells(out[k], e.cols)) ==> NamesEarlier(rows, key, order, k, Cells(out[k], e.cols)))
    && (forall k, p :: 0 <= k < |out| && 0 <= p < |log| && log[p].row == order[k] ==> NamesLater(rows, key, order, k, deferred[p].vals))
  }

  ghost predicate NamesEarlier(rows: seq<Row>, key: seq<string>, order: seq<nat>, k: nat, ks: seq<Cell>)
    requires forall j :: 0 <= j < |order| ==> order[j] < |rows|
  {
    (exists m :: 0 <= m <= k && m < |order| && Cells(rows[order[m]], key) == ks) ||
    (forall i :: 0 <= i < |rows| ==> Cells(rows[i], key) != ks)
  }

  ghost predicate NamesLater(rows: seq<Row>, key: seq<string>, order: seq<nat>, k: nat, ks: seq<Cell>)
    requires forall j :: 0 <= j < |order| ==> order[j] < |rows|
  {
    exists m :: k < m < |order| && Cells(rows[order[m]], key) == ks
  }

  method ParentRowsFirst(rows: seq<Row>, key: seq<string>, refs: seq<Edge>)
    returns (out: seq<Row>, deferred: seq<DeferredRef>, ghost order: seq<nat>, ghost log: seq<Deferral>)
    requires forall e :: e in refs ==> e.cols != []
    ensures Restorable(rows, key, refs, order, log, out, deferred)
    ensures exists p, l :: Restorable(rows, key, refs, p, l, out, deferred)
  {
    var index := BuildIndex(rows, key);
    var v := new RowTraversal(rows, key, refs, index);
    for i := 0 to |rows|
      invariant v.Valid() && v.rows == rows && v.key == key && v.refs == refs && v.index == index
      invariant forall j :: 0 <= j < |rows| ==> !v.state[j].InProgress?
      invariant forall j :: 0 <= j < i ==> !v.state[j].Unvisited?
    {
      v.Visit(i);
    }
    out, deferred, order, log := v.out, v.deferred, v.order, v.log;
    Summary(rows, key, refs, index, v.state, order, log, out, deferred);
  }

  lemma Summary(rows: seq<Row>, key: seq<string>, refs: seq<Edge>, index: map<seq<Cell>, nat>, state: seq<Mark>, order: seq<nat>, log: seq<Deferral>, out: seq<Row>, deferred: seq<DeferredRef>)
    requires Indexes(rows, key, index) && |state| == |rows| && |out| == |order| && Listed(state, order)
    requires forall i :: 0 <= i < |rows| ==> state[i].Done?
    requires Logged(rows, key, refs, deferred, log) && OutSound(rows, refs, index, order, out, log)
    requires Forced(index, state, order, deferred, log)
    ensures Restorable(rows, key, refs, order, log, out, deferred)
  {
    hide Indexes, LoggedAt, Emptied, Gone, InPlace, NamesEarlier, NamesLater;
    PermutationKeepsRows(rows, order);
    assert forall k :: 0 <= k < |out| ==> OutRow(rows, refs, index, order[..k], out[k], log, order[k]);
    forall k, e | 0 <= k < |out| && e in refs && Full(Cells(out[k], e.cols))
      ensures NamesEarlier(rows, key, order, k, Cells(out[k], e.cols))
    {
      InPlaceIsEarlier(rows, key, index, order, k, Cells(out[k], e.cols));
    }
    forall k, p | 0 <= k < |out| && 0 <= p < |log| && log[p].row == order[k]
      ensures NamesLater(rows, key, order, k, deferred[p].vals)
    {
      assert ForcedAt(index, state, order, deferred[p].vals, log[p].row);
      ForcedIsLater(rows, key, index, order, k, deferred[p].vals);
    }
  }

  lemma InPlaceIsEarlier(rows: seq<Row>, key: seq<string>, index: map<seq<Cell>, nat>, order: seq<nat>, k: nat, ks: seq<Cell>)
    requires Indexes(rows, key, index) && Permutes(order, |rows|) && k < |order|
    requires Full(ks) && InPlace(index, order[..k], order[k], ks)
    ensures NamesEarlier(rows, key, order, k, ks)
  {
    if ks in index {
      var j := index[ks];
      if j in order[..k] {
        var m :| 0 <= m < k && order[..k][m] == j;
        assert order[m] == j;
      }
    }
  }

  lemma ForcedIsLater(rows: seq<Row>, key: seq<string>, index: map<seq<Cell>, nat>, order: seq<nat>, k: nat, ks: seq<Cell>)
    requires Indexes(rows, key, index) && Permutes(order, |rows|) && k < |order|
    requires ks in index && index[ks] != order[k] && index[ks] !in order[..k]
    ensures NamesLater(rows, key, order, k, ks)
  {
    var j := index[ks];
    assert j in order && forall m :: 0 <= m < k ==> order[..k][m] == order[m];
    var m :| 0 <= m < |order| && order[m] == j;
  }

  lemma GoneMeets(log: seq<Deferral>, p: nat, i: nat, cols: set<string>)
    requires p <= |log|
    ensures Gone(log[..p], i) !! cols <==> forall q :: 0 <= q < p && log[q].row == i ==> Columns(log[q].edge.cols) !! cols
  {
    var before := log[..p];
    assert forall q :: 0 <= q < p ==> before[q] == log[q];
    assert forall q, c :: 0 <= q < p && before[q].row == i && c in before[q].edge.cols ==> c in Gone(before, i);
    forall q | 0 <= q < p && log[q].row == i && Gone(before, i) !! cols ensures Columns(log[q].edge.cols) !! cols {
      assert Columns(before[q].edge.cols) <= Gone(before, i);
    }
    forall c | (forall q :: 0 <= q < p && log[q].row == i ==> Columns(log[q].edge.cols) !! cols) && c in cols
      ensures c !in Gone(before, i)
    {
      assert forall q :: 0 <= q < p && log[q].row == i ==> c !in Columns(log[q].edge.cols);
    }
  }

  /**
  A deferred reference carries the values its row came with. It carries the
  row's own key exactly when no earlier deferral of the row has emptied a key column.
  */
  lemma DeferredAsArchived(rows: seq<Row>, key: seq<string>, refs: seq<Edge>, deferred: seq<DeferredRef>, log: seq<Deferral>, p: nat)
    requires Logged(rows, key, refs, deferred, log) && p < |log|
    requires log[p].row < |rows| && Full(Cells(rows[log[p].row], key))
    ensures var i := log[p].row;
            && deferred[p].vals == Cells(rows[i], log[p].edge.cols)
            && (deferred[p].key == Cells(rows[i], key) <==>
                forall q :: 0 <= q < p && log[q].row == i ==> Columns(log[q].edge.cols) !! Columns(key))
            && (Full(deferred[p].key) ==> deferred[p].key == Cells(rows[i], key))
  {
    var i, gone := log[p].row, Gone(log[..p], log[p].row);
    assert LoggedAt(rows, key, refs, deferred[p], log, p);
    GoneMeets(log, p, i, Columns(key));
    ClearedKey(rows[i], gone, key);
    MasksKeepFullCells(rows[i], Cleared(rows[i], gone), log[p].edge.cols);
  }

  /** The rows in the given order. */
  ghost function Reordered(rows: seq<Row>, order: seq<nat>): (r: seq<Row>)
    requires forall k :: 0 <= k < |order| ==> order[k] < |rows|
    ensures |r| == |order| && forall k :: 0 <= k < |order| ==> r[k] == rows[order[k]]
  {
    seq(|order|, k requires 0 <= k < |order| => rows[order[k]])
  }

  ghost function Without(order: seq<nat>, p: nat): seq<nat>
    requires p < |order|
  {
    order[..p] + order[p + 1..]
  }

  lemma DropLargest(order: seq<nat>, n: nat, p: nat)
    requires n > 0 && Permutes(order, n) && p < |order| && order[p] == n - 1
    ensures Permutes(Without(order, p), n - 1)
  {
    var rest := Without(order, p);
    assert forall k :: 0 <= k < |rest| ==> rest[k] == order[if k < p then k else k + 1];
    forall i | 0 <= i < n - 1 ensures i in rest {
      assert i in order;
      var k :| 0 <= k < |order| && order[k] == i;
      assert rest[if k < p then k else k - 1] == i;
    }
  }

  /** A permutation of the indices loses no row and adds none. */
  lemma {:induction false} PermutationKeepsRows(rows: seq<Row>, order: seq<nat>)
    requires Permutes(order, |rows|)
    ensures |order| == |rows| && multiset(Reordered(rows, order)) == multiset(rows)
    decreases |rows|
  {
    if rows == [] {
      assert order == [];
    } else {
      var n := |rows|;
      assert n - 1 in order;
      var p :| 0 <= p < |order| && order[p] == n - 1;
      var rest, front := Without(order, p), rows[..n - 1];
      assert |rest| == |order| - 1;
      DropLargest(order, n, p);
      PermutationKeepsRows(front, rest);
      ReorderedSplit(rows, order, p);
      var all, less := Reordered(rows, order), Reordered(front, rest);
      hide *;
      Interleave(all, less, rows, front, p);
    }
  }

  lemma Interleave(all: seq<Row>, less: seq<Row>, rows: seq<Row>, front: seq<Row>, p: nat)
    requires rows != [] && front == rows[..|rows| - 1] && p <= |less| && multiset(less) == multiset(front)
    requires all == less[..p] + [rows[|rows| - 1]] + less[p..]
    ensures multiset(all) == multiset(rows)
  {
    assert less == less[..p] + less[p..];
    assert rows == front + [rows[|rows| - 1]];
  }

  lemma ReorderedSplit(rows: seq<Row>, order: seq<nat>, p: nat)
    requires rows != [] && Permutes(order, |rows|) && p < |order| && order[p] == |rows| - 1
    requires Permutes(Without(order, p), |rows| - 1)
    ensures var less := Reordered(rows[..|rows| - 1], Without(order, p));
            Reordered(rows, order) == less[..p] + [rows[|rows| - 1]] + less[p..]
  {
    var rest := Without(order, p);
    assert forall k :: 0 <= k < |rest| ==> rest[k] == order[if k < p then k else k + 1];
  }
}
