/**
eraseAuditPlane: the audit table of an erasure. Rows stay; the user's name and the diffs
of what was erased go.
*/
module AuditPlane {
  import opened Anonymize

  const ERASED_DIFF := "{\"erased\":true}"
  const CHUNK := 500

  /** `rest` stands for the columns the erasure never reads. */
  datatype AuditRow = AuditRow(actor: Value, diff: Value, entity: Value, record: Value, rest: string)

  /** The record ids of one table's erased rows, under every entity name the table has. */
  datatype RecordSet = RecordSet(entities: seq<string>, ids: seq<string>)

  /** What the audit table has: a diff column, and with it the columns that name a record. */
  datatype Shape = Shape(diff: bool, records: bool)

  predicate IsUser(r: AuditRow, user: string) {
    r.actor == Text(user)
  }

  predicate RecordedIn(r: AuditRow, pairs: set<(string, string)>) {
    r.entity.Text? && r.record.Text? && (r.entity.s, r.record.s) in pairs
  }

  function PairsOf(ent: string, ids: seq<string>): set<(string, string)> {
    set id | id in ids :: (ent, id)
  }

  function SetPairs(rec: RecordSet): set<(string, string)> {
    set e, id | e in rec.entities && id in rec.ids :: (e, id)
  }

  function AllPairs(recs: seq<RecordSet>): set<(string, string)> {
    if recs == [] then {} else SetPairs(recs[0]) + AllPairs(recs[1..])
  }

  /** The user's own row: diff replaced, name replaced. */
  function OwnErased(shape: Shape, user: string, tombstone: string, r: AuditRow): AuditRow {
    if !IsUser(r, user) then r
    else if shape.diff && r.diff.Text? then r.(diff := Text(ERASED_DIFF), actor := Text(tombstone))
    else r.(actor := Text(tombstone))
  }

  /** Then the diff of a row recording one of these records. */
  function RecordErased(pairs: set<(string, string)>, r: AuditRow): AuditRow {
    if RecordedIn(r, pairs) && r.diff.Text? then r.(diff := Text(ERASED_DIFF)) else r
  }

  function Erased(shape: Shape, user: string, tombstone: string, recs: seq<RecordSet>, r: AuditRow): AuditRow {
    var own := OwnErased(shape, user, tombstone, r);
    if shape.records then RecordErased(AllPairs(recs), own) else own
  }

  /** A diff that still says something, on a row recording one of these records. */
  predicate Scrubbable(r: AuditRow, pairs: set<(string, string)>) {
    RecordedIn(r, pairs) && r.diff.Text? && r.diff.s != ERASED_DIFF
  }

  predicate Counted(shape: Shape, user: string, recs: seq<RecordSet>, r: AuditRow) {
    IsUser(r, user) || (shape.records && Scrubbable(r, AllPairs(recs)))
  }

  function CountedRows(shape: Shape, user: string, recs: seq<RecordSet>, rows: seq<AuditRow>): set<nat> {
    set k: nat | k < |rows| && Counted(shape, user, recs, rows[k])
  }

  /** UPDATE … SET diff WHERE actor_id = user AND diff IS NOT NULL. */
  function OwnDiffs(rows: seq<AuditRow>, user: string): seq<AuditRow> {
    seq(|rows|, k requires 0 <= k < |rows| =>
      if IsUser(rows[k], user) && rows[k].diff.Text? then rows[k].(diff := Text(ERASED_DIFF)) else rows[k])
  }

  /** UPDATE … SET actor_id WHERE actor_id = user. */
  function OwnNames(rows: seq<AuditRow>, user: string, tombstone: string): seq<AuditRow> {
    seq(|rows|, k requires 0 <= k < |rows| => if IsUser(rows[k], user) then rows[k].(actor := Text(tombstone)) else rows[k])
  }

  /** UPDATE … SET diff WHERE diff IS NOT NULL AND diff <> the marker AND one of these records. */
  function ScrubDiffs(rows: seq<AuditRow>, pairs: set<(string, string)>): seq<AuditRow> {
    seq(|rows|, k requires 0 <= k < |rows| => if Scrubbable(rows[k], pairs) then rows[k].(diff := Text(ERASED_DIFF)) else rows[k])
  }

  function OwnRows(rows: seq<AuditRow>, user: string): set<nat> {
    set k: nat | k < |rows| && IsUser(rows[k], user)
  }

  class AuditTable {
    var rows: seq<AuditRow>

    constructor (rows: seq<AuditRow>)
      ensures this.rows == rows
    {
      this.rows := rows;
    }

    /** Returns the rows changed, each counted once. */
    method Erase(shape: Shape, user: string, tombstone: string, recs: seq<RecordSet>) returns (n: nat)
      requires shape.records ==> shape.diff
      modifies this
      ensures |rows| == |old(rows)|
      ensures forall k :: 0 <= k < |rows| ==> rows[k] == Erased(shape, user, tombstone, recs, old(rows)[k])
      ensures n == |CountedRows(shape, user, recs, old(rows))|
    {
      ghost var before := rows;
      // The diff first, while the actor still names the user's rows.
      if shape.diff {
        rows := OwnDiffs(rows, user);
      }
      assert OwnRows(rows, user) == OwnRows(before, user);
      n := |OwnRows(rows, user)|;
      rows := OwnNames(rows, user, tombstone);
      assert OwnRows(before, user) == Touched(shape, user, {}, before);
      if !shape.records {
        assert Touched(shape, user, {}, before) == CountedRows(shape, user, recs, before);
        return;
      }
      ghost var done: set<(string, string)> := {};
      assert AllPairs(recs[..0]) == {};
      assert Partly(shape, user, tombstone, done, before, rows);
      for i := 0 to |recs|
        invariant Partly(shape, user, tombstone, done, before, rows) && n == |Touched(shape, user, done, before)|
        invariant done == AllPairs(recs[..i])
      {
        n, done := EraseSet(shape, user, tombstone, recs[i], before, n, done);
        MorePairs(recs, i);
      }
      assert recs[..|recs|] == recs;
      Finished(shape, user, tombstone, recs, before, rows);
    }

    /** Every entity name of one table, its ids a chunk at a time. */
    method EraseSet(shape: Shape, ghost user: string, ghost tombstone: string, rec: RecordSet, ghost before: seq<AuditRow>, n0: nat, ghost done0: set<(string, string)>)
      returns (n: nat, ghost done: set<(string, string)>)
      requires shape.diff && shape.records && Partly(shape, user, tombstone, done0, before, rows) && n0 == |Touched(shape, user, done0, before)|
      modifies this
      ensures Partly(shape, user, tombstone, done, before, rows) && n == |Touched(shape, user, done, before)|
      ensures done == done0 + SetPairs(rec)
    {
      hide *;
      n, done := n0, done0;
      NoNames(rec, done0);
      for e := 0 to |rec.entities|
        invariant Partly(shape, user, tombstone, done, before, rows) && n == |Touched(shape, user, done, before)|
        invariant done == done0 + NamePairs(rec.entities[..e], rec.ids)
      {
        var ent := rec.entities[e];
        ghost var done1 := done;
        NoIds(ent, rec.ids, done1);
        var start := 0;
        ChunksAdvance();
        while start < |rec.ids|
          invariant start <= |rec.ids|
          invariant Partly(shape, user, tombstone, done, before, rows) && n == |Touched(shape, user, done, before)|
          invariant done == done1 + PairsOf(ent, rec.ids[..start])
        {
          var end := if start + CHUNK < |rec.ids| then start + CHUNK else |rec.ids|;
          var ids := rec.ids[start..end];
          ChunkErased(shape, user, tombstone, ent, ids, before, rows, done);
          n := n + |set k: nat | k < |rows| && Scrubbable(rows[k], PairsOf(ent, ids))|;
          rows := ScrubDiffs(rows, PairsOf(ent, ids));
          done := done + PairsOf(ent, ids);
          MoreIds(ent, rec.ids, start, end);
          start := end;
        }
        assert rec.ids[..|rec.ids|] == rec.ids;
        MoreNames(rec.entities, rec.ids, e);
      }
      AllNames(rec);
    }
  }

  lemma ChunksAdvance()
    ensures CHUNK > 0
  {
  }

  /** The rows counted once these pairs are done: the user's, and those recording one of them. */
  function Touched(shape: Shape, user: string, done: set<(string, string)>, before: seq<AuditRow>): set<nat> {
    set k: nat | k < |before| && (IsUser(before[k], user) || Scrubbable(before[k], done))
  }

  ghost predicate Partly(shape: Shape, user: string, tombstone: string, done: set<(string, string)>, before: seq<AuditRow>, rows: seq<AuditRow>) {
    |rows| == |before| && forall k :: 0 <= k < |rows| ==> rows[k] == RecordErased(done, OwnErased(shape, user, tombstone, before[k]))
  }

  /** One chunk: the rows it counts are new, and the rows it changes are as they should be. */
  lemma ChunkErased(shape: Shape, user: string, tombstone: string, ent: string, ids: seq<string>, before: seq<AuditRow>, rows: seq<AuditRow>, done: set<(string, string)>)
    requires shape.diff && Partly(shape, user, tombstone, done, before, rows)
    ensures var pairs := PairsOf(ent, ids);
            && Partly(shape, user, tombstone, done + pairs, before, ScrubDiffs(rows, pairs))
            && |Touched(shape, user, done + pairs, before)|
               == |Touched(shape, user, done, before)| + |set k: nat | k < |rows| && Scrubbable(rows[k], pairs)|
  {
    var pairs := PairsOf(ent, ids);
    var newly := set k: nat | k < |rows| && Scrubbable(rows[k], pairs);
    var touched := Touched(shape, user, done, before);
    forall k: nat | k < |rows|
      ensures Scrubbable(rows[k], pairs) <==> k in Touched(shape, user, done + pairs, before) && k !in touched
      ensures k in touched ==> k in Touched(shape, user, done + pairs, before)
      ensures (if Scrubbable(rows[k], pairs) then rows[k].(diff := Text(ERASED_DIFF)) else rows[k])
              == RecordErased(done + pairs, OwnErased(shape, user, tombstone, before[k]))
    {
      RowErased(shape, user, tombstone, pairs, before[k], rows[k], done);
    }
    assert touched !! newly && Touched(shape, user, done + pairs, before) == touched + newly;
  }

  lemma RowErased(shape: Shape, user: string, tombstone: string, pairs: set<(string, string)>, r0: AuditRow, r: AuditRow, done: set<(string, string)>)
    requires shape.diff && r == RecordErased(done, OwnErased(shape, user, tombstone, r0))
    ensures Scrubbable(r, pairs) <==> Scrubbable(r0, done + pairs) && !IsUser(r0, user) && !Scrubbable(r0, done)
    ensures Scrubbable(r0, done) ==> Scrubbable(r0, done + pairs)
    ensures (if Scrubbable(r, pairs) then r.(diff := Text(ERASED_DIFF)) else r) == RecordErased(done + pairs, OwnErased(shape, user, tombstone, r0))
  {
  }

  lemma Finished(shape: Shape, user: string, tombstone: string, recs: seq<RecordSet>, before: seq<AuditRow>, rows: seq<AuditRow>)
    requires shape.records && Partly(shape, user, tombstone, AllPairs(recs), before, rows)
    ensures forall k :: 0 <= k < |rows| ==> rows[k] == Erased(shape, user, tombstone, recs, before[k])
    ensures Touched(shape, user, AllPairs(recs), before) == CountedRows(shape, user, recs, before)
  {
  }

  // ---- Pairs ---------------------------------------------------------------

  function NamePairs(entities: seq<string>, ids: seq<string>): set<(string, string)> {
    set e, id | e in entities && id in ids :: (e, id)
  }

  lemma NoNames(rec: RecordSet, done: set<(string, string)>)
    ensures done == done + NamePairs(rec.entities[..0], rec.ids)
  {
  }

  lemma AllNames(rec: RecordSet)
    ensures NamePairs(rec.entities[..|rec.entities|], rec.ids) == SetPairs(rec)
  {
    assert rec.entities[..|rec.entities|] == rec.entities;
  }

  lemma MoreNames(entities: seq<string>, ids: seq<string>, e: nat)
    requires e < |entities|
    ensures NamePairs(entities[..e + 1], ids) == NamePairs(entities[..e], ids) + PairsOf(entities[e], ids)
  {
    assert entities[..e + 1] == entities[..e] + [entities[e]];
  }

  lemma NoIds(ent: string, ids: seq<string>, done: set<(string, string)>)
    ensures done == done + PairsOf(ent, ids[..0])
  {
  }

  lemma MoreIds(ent: string, ids: seq<string>, start: nat, end: nat)
    requires start <= end <= |ids|
    ensures PairsOf(ent, ids[..end]) == PairsOf(ent, ids[..start]) + PairsOf(ent, ids[start..end])
  {
    assert ids[..end] == ids[..start] + ids[start..end];
  }

  lemma MorePairs(recs: seq<RecordSet>, i: nat)
    requires i < |recs|
    ensures AllPairs(recs[..i + 1]) == AllPairs(recs[..i]) + SetPairs(recs[i])
  {
    assert recs[..i + 1] == recs[..i] + [recs[i]];
    PairsAppend(recs[..i], recs[i]);
  }

  lemma {:induction false} PairsAppend(recs: seq<RecordSet>, rec: RecordSet)
    ensures AllPairs(recs + [rec]) == AllPairs(recs) + SetPairs(rec)
  {
    if recs != [] {
      assert (recs + [rec])[1..] == recs[1..] + [rec];
      PairsAppend(recs[1..], rec);
    } else {
      assert recs + [rec] == [rec] && AllPairs([rec][1..]) == {};
    }
  }

  // ---- Counts are changes, and a second erasure finds none -----------------

  /** A row is counted exactly when it changes, for a tombstone that is not the user. */
  lemma CountedIsChanged(shape: Shape, user: string, tombstone: string, recs: seq<RecordSet>, r: AuditRow)
    requires (shape.records ==> shape.diff) && tombstone != user
    ensures Counted(shape, user, recs, r) <==> Erased(shape, user, tombstone, recs, r) != r
  {
  }

  /** A second erasure with the same records counts nothing and changes nothing; its count is zero only so. */
  lemma SecondAuditErasure(shape: Shape, user: string, tombstone: string, recs: seq<RecordSet>, rows: seq<AuditRow>)
    requires shape.records ==> shape.diff
    ensures var after := seq(|rows|, k requires 0 <= k < |rows| => Erased(shape, user, tombstone, recs, rows[k]));
            && (CountedRows(shape, user, recs, after) == {}
                <==> tombstone != user || forall k :: 0 <= k < |rows| ==> !IsUser(rows[k], user))
            && forall k :: 0 <= k < |rows| ==> Erased(shape, user, tombstone, recs, after[k]) == after[k]
  {
    var after := seq(|rows|, k requires 0 <= k < |rows| => Erased(shape, user, tombstone, recs, rows[k]));
    forall k: nat | k < |rows|
      ensures Counted(shape, user, recs, after[k]) <==> tombstone == user && IsUser(rows[k], user)
      ensures Erased(shape, user, tombstone, recs, after[k]) == after[k]
    {
    }
    if tombstone == user && exists k :: 0 <= k < |rows| && IsUser(rows[k], user) {
      var k: nat :| k < |rows| && IsUser(rows[k], user);
      assert k in CountedRows(shape, user, recs, after);
    }
  }
}
