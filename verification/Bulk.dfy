/**
sqlBulkStore: the jobs and items tables behind queued bulk runs. Every statement or
transaction is one step; a step that fails is rolled back and changes nothing.
*/
module Bulk {
  import opened Ordering

  const QUEUED := "queued"
  const DONE := "done"
  const STOPPED := "stopped"
  const ROW_DONE := "done"
  const ROW_SKIPPED := "skipped"
  const ROW_FAILED := "failed"

  datatype Option<T> = None | Some(value: T)

  /** A jobs row; `about` stands for the columns no statement here tests. */
  datatype Job = Job(
    about: string, key: string, status: string, enqueued: bool, token: string, lease: Option<int>,
    done: nat, skipped: nat, failed: nat, created: int, finished: Option<int>)

  /** An items row: its place in confirm order and, once settled, its outcome. */
  datatype Item = Item(at: nat, outcome: Option<string>)

  /** Jobs by id; items by job id and record id, the primary keys. */
  datatype Db = Db(jobs: map<string, Job>, items: map<(string, string), Item>)

  predicate Queued(db: Db, id: string) {
    id in db.jobs && db.jobs[id].status == QUEUED
  }

  predicate RowOutcome(o: string) {
    o == ROW_DONE || o == ROW_SKIPPED || o == ROW_FAILED
  }

  predicate Distinct(ids: seq<string>) {
    forall i, j :: 0 <= i < j < |ids| ==> ids[i] != ids[j]
  }

  // ---- What each transaction does ------------------------------------------

  /** The insert passes the jobs key, the unique index on queued run keys and the items key. */
  predicate CanCreate(db: Db, id: string, key: string, ids: seq<string>) {
    && key != "" && id !in db.jobs && (forall j :: j in db.jobs && db.jobs[j].status == QUEUED ==> db.jobs[j].key != key)
    && Distinct(ids) && forall r :: r in ids ==> (id, r) !in db.items
  }

  function NewJob(about: string, key: string, at: int): Job {
    Job(about, key, QUEUED, false, "", None, 0, 0, 0, at, None)
  }

  function IndexOf(ids: seq<string>, r: string): (k: nat)
    requires r in ids
    ensures k < |ids| && ids[k] == r
  {
    if ids[0] == r then 0 else
      assert ids == [ids[0]] + ids[1..];
      1 + IndexOf(ids[1..], r)
  }

  function NewItems(id: string, ids: seq<string>): map<(string, string), Item> {
    map k | k in set r | r in ids :: (id, r) :: Item(if k.1 in ids then IndexOf(ids, k.1) else 0, None)
  }

  function Created(db: Db, id: string, about: string, key: string, ids: seq<string>, at: int): Db {
    Db(db.jobs[id := NewJob(about, key, at)], db.items + NewItems(id, ids))
  }

  predicate CanClaim(db: Db, id: string, runner: string, now: int) {
    && runner != "" && Queued(db, id)
    && (db.jobs[id].token == runner || db.jobs[id].token == "" || (db.jobs[id].lease.Some? && db.jobs[id].lease.value <= now))
  }

  function Claimed(db: Db, id: string, runner: string, until: int): Db
    requires id in db.jobs
  {
    db.(jobs := db.jobs[id := db.jobs[id].(token := runner, lease := Some(until))])
  }

  /** holdLease: the token in the row, on a queued job. */
  predicate Holds(db: Db, id: string, runner: string) {
    Queued(db, id) && db.jobs[id].token == runner
  }

  predicate ValidOutcomes(outcomes: map<string, string>) {
    forall r :: r in outcomes ==> RowOutcome(outcomes[r])
  }

  /** The first outcome of each id stays. */
  function Settled(db: Db, id: string, outcomes: map<string, string>): Db {
    db.(items := map k | k in db.items ::
                   if k.0 == id && k.1 in outcomes && db.items[k].outcome.None?
                   then db.items[k].(outcome := Some(outcomes[k.1])) else db.items[k])
  }

  function WithOutcome(db: Db, id: string, o: string): set<(string, string)> {
    set k | k in db.items && k.0 == id && db.items[k].outcome == Some(o)
  }

  function Finished(db: Db, id: string, status: string, at: int): Db
    requires id in db.jobs
  {
    Db(db.jobs[id := db.jobs[id].(
                     status := status, finished := Some(at), token := "", lease := None,
                     done := |WithOutcome(db, id, ROW_DONE)|, skipped := |WithOutcome(db, id, ROW_SKIPPED)|,
                     failed := |WithOutcome(db, id, ROW_FAILED)|)],
       map k | k in db.items && k.0 != id :: db.items[k])
  }

  predicate Expired(db: Db, id: string, before: int) {
    id in db.jobs && db.jobs[id].status != QUEUED && db.jobs[id].finished.Some? && db.jobs[id].finished.value < before
  }

  function Pruned(db: Db, before: int): Db {
    Db(map id | id in db.jobs && !Expired(db, id, before) :: db.jobs[id],
       map k | k in db.items && !Expired(db, k.0, before) :: db.items[k])
  }

  // ---- The store -----------------------------------------------------------

  datatype Answer = Ok | LeaseLost | UnknownJob | Invalid | DatabaseError

  datatype Holding = Held(id: string) | NotCreated

  class SqlBulkStore {
    var jobs: map<string, Job>
    var items: map<(string, string), Item>

    function Now(): Db
      reads this
    {
      Db(jobs, items)
    }

    constructor ()
      ensures Now() == Db(map[], map[])
    {
      jobs, items := map[], map[];
    }

    /** Writes the job and its ids, or answers the queued job that already holds the key. */
    method Create(id: string, about: string, key: string, ids: seq<string>, at: int, fails: bool) returns (held: Holding)
      modifies this
      ensures CanCreate(old(Now()), id, key, ids) && !fails ==> Now() == Created(old(Now()), id, about, key, ids, at) && held == Held(id)
      ensures !CanCreate(old(Now()), id, key, ids) || fails ==>
        && Now() == old(Now())
        && (held.Held? ==> Queued(Now(), held.id) && Now().jobs[held.id].key == key)
        && (held.NotCreated? ==> key == "" || forall j :: Queued(Now(), j) ==> Now().jobs[j].key != key)
    {
      if key == "" {
        return NotCreated;
      }
      var ok := Insert(id, about, key, ids, at, fails);
      if ok {
        return Held(id);
      }
      held := QueuedByKey(key);
    }

    method QueuedByKey(key: string) returns (held: Holding)
      ensures held.Held? ==> Queued(Now(), held.id) && Now().jobs[held.id].key == key
      ensures held.NotCreated? ==> forall j :: Queued(Now(), j) ==> Now().jobs[j].key != key
    {
      if j :| j in jobs && jobs[j].key == key && jobs[j].status == QUEUED {
        return Held(j);
      }
      return NotCreated;
    }

    /** One transaction: the job row, refused by its keys, then the ids. */
    method Insert(id: string, about: string, key: string, ids: seq<string>, at: int, fails: bool) returns (ok: bool)
      requires key != ""
      modifies this
      ensures ok == (CanCreate(old(Now()), id, key, ids) && !fails)
      ensures Now() == if ok then Created(old(Now()), id, about, key, ids, at) else old(Now())
    {
      if id in jobs || exists j :: j in jobs && jobs[j].status == QUEUED && jobs[j].key == key {
        return false;
      }
      ok := InsertRows(id, about, key, ids, at, fails);
    }

    /** The accepted job row, then the ids in batches of 500; any refused row undoes it all. */
    method InsertRows(id: string, about: string, key: string, ids: seq<string>, at: int, fails: bool) returns (ok: bool)
      requires JobRowFits(Now(), id, key)
      modifies this
      ensures ok == (CanCreate(old(Now()), id, key, ids) && !fails)
      ensures Now() == if ok then Created(old(Now()), id, about, key, ids, at) else old(Now())
    {
      hide *;
      ghost var db := Now();
      NowIs();
      var savedJobs, savedItems := jobs, items;
      NoItemsYet(items, id, ids);
      jobs := jobs[id := NewJob(about, key, at)];
      var start := 0;
      while start < |ids|
        invariant start <= |ids| && jobs == savedJobs[id := NewJob(about, key, at)]
        invariant ItemsInserted(savedItems, items, id, ids, start)
      {
        var end := if start + 500 < |ids| then start + 500 else |ids|;
        var k := start;
        while k < end
          invariant start <= k <= end && jobs == savedJobs[id := NewJob(about, key, at)]
          invariant ItemsInserted(savedItems, items, id, ids, k)
        {
          if (id, ids[k]) in items {
            RefusedRow(db, items, id, key, ids, k);
            jobs, items := savedJobs, savedItems;
            NowIs();
            return false;
          }
          InsertedOne(savedItems, items, id, ids, k);
          items := items[(id, ids[k]) := Item(k, None)];
          k := k + 1;
        }
        start := end;
      }
      InsertedAll(db, items, id, about, key, ids, at);
      if fails {
        jobs, items := savedJobs, savedItems;
        NowIs();
        return false;
      }
      NowIs();
      return true;
    }

    lemma NowIs()
      ensures Now() == Db(jobs, items)
    {
    }

    method Enqueued(id: string) returns (answer: Answer)
      modifies this
      ensures answer == if id in old(jobs) then Ok else UnknownJob
      ensures Now() == if id in old(jobs) then old(Now()).(jobs := old(jobs)[id := old(jobs)[id].(enqueued := true)]) else old(Now())
    {
      if id !in jobs {
        return UnknownJob;
      }
      jobs := jobs[id := jobs[id].(enqueued := true)];
      return Ok;
    }

    /** One conditional UPDATE; an empty runner token is an error. */
    method Claim(id: string, runner: string, now: int, until: int, fails: bool) returns (held: bool)
      modifies this
      ensures held == (CanClaim(old(Now()), id, runner, now) && !fails)
      ensures Now() == if held then Claimed(old(Now()), id, runner, until) else old(Now())
    {
      if runner == "" || fails || id !in jobs {
        return false;
      }
      var job := jobs[id];
      held := job.status == QUEUED && (job.token == runner || job.token == "" || (job.lease.Some? && job.lease.value <= now));
      if held {
        jobs := jobs[id := job.(token := runner, lease := Some(until))];
      }
    }

    /** Records outcomes while the runner holds the lease; the ids in sorted order, one UPDATE each. */
    method Settle(id: string, runner: string, outcomes: map<string, string>, fails: bool) returns (answer: Answer)
      modifies this
      ensures answer == if !ValidOutcomes(outcomes) then Invalid
                        else if fails then DatabaseError
                        else if !Holds(old(Now()), id, runner) then LeaseLost else Ok
      ensures Now() == if answer == Ok then Settled(old(Now()), id, outcomes) else old(Now())
    {
      var ids := SortedKeys(outcomes.Keys);
      for i := 0 to |ids|
        invariant forall j :: 0 <= j < i ==> RowOutcome(outcomes[ids[j]])
      {
        if !RowOutcome(outcomes[ids[i]]) {
          return Invalid;
        }
      }
      assert ValidOutcomes(outcomes) by {
        forall r | r in outcomes ensures RowOutcome(outcomes[r]) {
          assert r in ids;
        }
      }
      if fails {
        return DatabaseError;
      }
      if id !in jobs || jobs[id].token != runner || jobs[id].status != QUEUED {
        return LeaseLost;
      }
      ghost var db := Now();
      for i := 0 to |ids|
        invariant jobs == old(jobs) && SettledSome(db.items, items, id, outcomes, ids[..i])
      {
        SettledOne(db.items, items, id, outcomes, ids, i);
        var k := (id, ids[i]);
        if k in items && items[k].outcome.None? {
          items := items[k := items[k].(outcome := Some(outcomes[ids[i]]))];
        }
      }
      SettledAll(db, items, id, outcomes, ids);
      return Ok;
    }

    predicate Unsettled(id: string, r: string)
      reads this
    {
      (id, r) in items && items[(id, r)].outcome.None?
    }

    function SeqOf(id: string, r: string): nat
      reads this
    {
      if (id, r) in items then items[(id, r)].at else 0
    }

    /** Up to limit unsettled ids in confirm order: none outside the page comes before one inside. */
    method Pending(id: string, limit: int) returns (page: seq<string>)
      ensures limit <= 0 ==> page == []
      ensures limit > 0 ==> |page| <= limit
      ensures Distinct(page) && forall r :: r in page ==> Unsettled(id, r)
      ensures forall i, j :: 0 <= i < j < |page| ==> SeqOf(id, page[i]) <= SeqOf(id, page[j])
      ensures limit > 0 ==> forall r :: Unsettled(id, r) && r !in page ==>
        |page| == limit && forall i :: 0 <= i < |page| ==> SeqOf(id, page[i]) <= SeqOf(id, r)
    {
      page := [];
      if limit <= 0 {
        return;
      }
      var left := set k | k in items && k.0 == id && items[k].outcome.None? :: k.1;
      while left != {} && |page| < limit
        invariant |page| <= limit && Distinct(page)
        invariant forall r :: r in page ==> Unsettled(id, r) && r !in left
        invariant forall r :: r in left ==> Unsettled(id, r)
        invariant forall r :: Unsettled(id, r) ==> r in page || r in left
        invariant forall i, j :: 0 <= i < j < |page| ==> SeqOf(id, page[i]) <= SeqOf(id, page[j])
        invariant forall i, r :: 0 <= i < |page| && r in left ==> SeqOf(id, page[i]) <= SeqOf(id, r)
        decreases |left|
      {
        var r := First(id, left);
        left := left - {r};
        page := page + [r];
      }
    }

    /** ORDER BY seq: a record of the least seq. */
    method First(id: string, records: set<string>) returns (r: string)
      requires records != {} && forall x :: x in records ==> (id, x) in items
      ensures r in records && forall x :: x in records ==> SeqOf(id, r) <= SeqOf(id, x)
    {
      r :| r in records;
      var left := records - {r};
      while left != {}
        invariant left <= records && r in records
        invariant forall x :: x in records && x !in left ==> SeqOf(id, r) <= SeqOf(id, x)
        decreases |left|
      {
        var x :| x in left;
        left := left - {x};
        if SeqOf(id, x) < SeqOf(id, r) {
          r := x;
        }
      }
    }

    /** Counts the settled ids by outcome. */
    method Tally(id: string) returns (counts: map<string, nat>)
      ensures forall o :: o in counts <==> WithOutcome(Now(), id, o) != {}
      ensures forall o :: o in counts ==> counts[o] == |WithOutcome(Now(), id, o)|
    {
      var seen := set k | k in items && k.0 == id && items[k].outcome.Some? :: items[k].outcome.value;
      counts := map o | o in seen :: |WithOutcome(Now(), id, o)|;
      forall o ensures o in counts <==> WithOutcome(Now(), id, o) != {} {
        if o in seen {
          var k :| k in items && k.0 == id && items[k].outcome == Some(o);
          assert k in WithOutcome(Now(), id, o);
        }
        if WithOutcome(Now(), id, o) != {} {
          var k :| k in WithOutcome(Now(), id, o);
          assert o in seen;
        }
      }
    }

    /** Closes the job with its tally and deletes its ids. */
    method Finish(id: string, runner: string, status: string, at: int, fails: bool) returns (answer: Answer)
      modifies this
      ensures answer == if status != DONE && status != STOPPED then Invalid
                        else if fails then DatabaseError
                        else if Holds(old(Now()), id, runner) then Ok
                        else if id in old(jobs) then LeaseLost else UnknownJob
      ensures Now() == if answer == Ok then Finished(old(Now()), id, status, at) else old(Now())
    {
      if status != DONE && status != STOPPED {
        return Invalid;
      }
      if fails {
        return DatabaseError;
      }
      if id !in jobs {
        return UnknownJob;
      }
      var job := jobs[id];
      if job.token != runner || job.status != QUEUED {
        return LeaseLost;
      }
      jobs := jobs[id := job.(status := status, finished := Some(at), token := "", lease := None,
                              done := |WithOutcome(Now(), id, ROW_DONE)|, skipped := |WithOutcome(Now(), id, ROW_SKIPPED)|,
                              failed := |WithOutcome(Now(), id, ROW_FAILED)|)];
      items := map k | k in items && k.0 != id :: items[k];
      return Ok;
    }

    method Prune(before: int, fails: bool) returns (n: nat)
      modifies this
      ensures Now() == if fails then old(Now()) else Pruned(old(Now()), before)
      ensures n == if fails then 0 else |set id | id in old(jobs) && Expired(old(Now()), id, before)|
    {
      if fails {
        return 0;
      }
      var gone := set id | id in jobs && Expired(Now(), id, before);
      items := map k | k in items && !Expired(Now(), k.0, before) :: items[k];
      jobs := map id | id in jobs && !Expired(Now(), id, before) :: jobs[id];
      return |gone|;
    }
  }

  // ---- The insert loop -----------------------------------------------------

  ghost predicate ItemsInserted(before: map<(string, string), Item>, items: map<(string, string), Item>, id: string, ids: seq<string>, k: nat) {
    && k <= |ids| && Distinct(ids[..k]) && (forall r :: r in ids[..k] ==> (id, r) !in before)
    && items == before + NewItems(id, ids[..k])
  }

  lemma NoItemsYet(items: map<(string, string), Item>, id: string, ids: seq<string>)
    ensures ItemsInserted(items, items, id, ids, 0)
  {
    assert NewItems(id, ids[..0]) == map[];
  }

  ghost predicate JobRowFits(db: Db, id: string, key: string) {
    key != "" && id !in db.jobs && forall j :: j in db.jobs && db.jobs[j].status == QUEUED ==> db.jobs[j].key != key
  }

  lemma RefusedRow(db: Db, items: map<(string, string), Item>, id: string, key: string, ids: seq<string>, k: nat)
    requires k < |ids| && ItemsInserted(db.items, items, id, ids, k) && (id, ids[k]) in items
    ensures !CanCreate(db, id, key, ids)
  {
    if (id, ids[k]) !in db.items {
      assert ids[k] in ids[..k];
      var i :| 0 <= i < k && ids[..k][i] == ids[k];
      assert ids[i] == ids[k];
    }
  }

  lemma {:induction false} IndexOfPrefix(ids: seq<string>, k: nat, r: string)
    requires k <= |ids| && r in ids[..k]
    ensures IndexOf(ids, r) == IndexOf(ids[..k], r)
  {
    if ids[0] != r {
      assert ids[..k][1..] == ids[1..][..k - 1];
      assert ids[..k] == [ids[0]] + ids[..k][1..];
      IndexOfPrefix(ids[1..], k - 1, r);
    }
  }

  lemma InsertedOne(before: map<(string, string), Item>, items: map<(string, string), Item>, id: string, ids: seq<string>, k: nat)
    requires k < |ids| && ItemsInserted(before, items, id, ids, k) && (id, ids[k]) !in items
    ensures ItemsInserted(before, items[(id, ids[k]) := Item(k, None)], id, ids, k + 1)
  {
    NewItemsGrow(id, ids, k);
    NewIdOnly(before, id, ids, k);
    hide NewItems, Distinct;
    var m := NewItems(id, ids[..k]);
    AddedLast(before, m, (id, ids[k]), Item(k, None));
  }

  lemma AddedLast(a: map<(string, string), Item>, b: map<(string, string), Item>, k: (string, string), v: Item)
    ensures a + b[k := v] == (a + b)[k := v]
  {
  }

  lemma NewIdOnly(before: map<(string, string), Item>, id: string, ids: seq<string>, k: nat)
    requires k < |ids| && Distinct(ids[..k]) && (id, ids[k]) !in before + NewItems(id, ids[..k])
    requires forall r :: r in ids[..k] ==> (id, r) !in before
    ensures ids[k] !in ids[..k] && Distinct(ids[..k + 1]) && forall r :: r in ids[..k + 1] ==> (id, r) !in before
  {
    var more := ids[..k + 1];
    assert more == ids[..k] + [ids[k]] && more[..k] == ids[..k];
    NewItemKeys(id, ids[..k], ids[k]);
    assert forall i :: 0 <= i < k ==> ids[..k][i] == more[i] != ids[k];
  }

  lemma NewItemKeys(id: string, ids: seq<string>, r: string)
    ensures r in ids <==> (id, r) in NewItems(id, ids)
  {
  }

  lemma NewItemsGrow(id: string, ids: seq<string>, k: nat)
    requires k < |ids|
    ensures ids[k] !in ids[..k] ==> NewItems(id, ids[..k + 1]) == NewItems(id, ids[..k])[(id, ids[k]) := Item(k, None)]
  {
    var more := ids[..k + 1];
    if ids[k] !in ids[..k] {
      assert more == ids[..k] + [ids[k]] && more[..k] == ids[..k];
      var next := NewItems(id, ids[..k])[(id, ids[k]) := Item(k, None)];
      assert forall i :: 0 <= i < k ==> ids[..k][i] == more[i] != ids[k];
      forall x | x in NewItems(id, more) ensures x in next && next[x] == NewItems(id, more)[x] {
        if x.1 in ids[..k] {
          IndexOfPrefix(more, k, x.1);
        } else {
          assert more[IndexOf(more, x.1)] == ids[k];
        }
      }
      assert forall x :: x in next ==> x in NewItems(id, more);
    }
  }

  lemma InsertedAll(db: Db, items: map<(string, string), Item>, id: string, about: string, key: string, ids: seq<string>, at: int)
    requires JobRowFits(db, id, key) && ItemsInserted(db.items, items, id, ids, |ids|)
    ensures CanCreate(db, id, key, ids) && Db(db.jobs[id := NewJob(about, key, at)], items) == Created(db, id, about, key, ids, at)
  {
    assert ids[..|ids|] == ids;
  }

  // ---- The settle loop -----------------------------------------------------

  function SettledItem(k: (string, string), item: Item, id: string, outcomes: map<string, string>, done: seq<string>): Item {
    if k.0 == id && k.1 in done && k.1 in outcomes && item.outcome.None? then item.(outcome := Some(outcomes[k.1])) else item
  }

  ghost predicate SettledSome(before: map<(string, string), Item>, items: map<(string, string), Item>, id: string, outcomes: map<string, string>, done: seq<string>) {
    && items.Keys == before.Keys && (forall r :: r in done ==> r in outcomes)
    && forall k :: k in before ==> items[k] == SettledItem(k, before[k], id, outcomes, done)
  }

  lemma SettledOne(before: map<(string, string), Item>, items: map<(string, string), Item>, id: string, outcomes: map<string, string>, ids: seq<string>, i: nat)
    requires i < |ids| && SettledSome(before, items, id, outcomes, ids[..i]) && StrictlySorted(ids) && ids[i] in outcomes
    ensures var k := (id, ids[i]);
            var next := if k in items && items[k].outcome.None? then items[k := items[k].(outcome := Some(outcomes[ids[i]]))] else items;
            SettledSome(before, next, id, outcomes, ids[..i + 1])
  {
    assert ids[..i + 1] == ids[..i] + [ids[i]];
    assert ids[i] !in ids[..i];
  }

  lemma SettledAll(db: Db, items: map<(string, string), Item>, id: string, outcomes: map<string, string>, ids: seq<string>)
    requires SettledSome(db.items, items, id, outcomes, ids[..|ids|]) && forall r :: r in ids <==> r in outcomes
    ensures items == Settled(db, id, outcomes).items
  {
    assert ids[..|ids|] == ids;
  }

  // ---- Runs ----------------------------------------------------------------

  datatype Event =
    | Create(id: string, about: string, key: string, ids: seq<string>, at: int, fails: bool)
    | Enqueue(id: string)
    | Claim(id: string, runner: string, now: int, until: int, fails: bool)
    | Settle(id: string, runner: string, outcomes: map<string, string>, fails: bool)
    | Finish(id: string, runner: string, status: string, at: int, fails: bool)
    | Prune(before: int, fails: bool)

  function Apply(db: Db, e: Event): Db {
    match e
    case Create(id, about, key, ids, at, fails) => if CanCreate(db, id, key, ids) && !fails then Created(db, id, about, key, ids, at) else db
    case Enqueue(id) => if id in db.jobs then db.(jobs := db.jobs[id := db.jobs[id].(enqueued := true)]) else db
    case Claim(id, runner, now, until, fails) => if CanClaim(db, id, runner, now) && !fails then Claimed(db, id, runner, until) else db
    case Settle(id, runner, outcomes, fails) => if ValidOutcomes(outcomes) && !fails && Holds(db, id, runner) then Settled(db, id, outcomes) else db
    case Finish(id, runner, status, at, fails) =>
      if (status == DONE || status == STOPPED) && !fails && Holds(db, id, runner) then Finished(db, id, status, at) else db
    case Prune(before, fails) => if fails then db else Pruned(db, before)
  }

  /** The store, and what the run did to it: who last claimed each job, and the ids each job was confirmed with. */
  datatype World = World(db: Db, claimer: map<string, string>, confirmed: map<string, seq<string>>)

  function Next(w: World, e: Event): World {
    World(
      Apply(w.db, e),
      if e.Claim? && CanClaim(w.db, e.id, e.runner, e.now) && !e.fails then w.claimer[e.id := e.runner]
      else if e.Create? && CanCreate(w.db, e.id, e.key, e.ids) && !e.fails then map id | id in w.claimer && id != e.id :: w.claimer[id]
      else w.claimer,
      if e.Create? && CanCreate(w.db, e.id, e.key, e.ids) && !e.fails then w.confirmed[e.id := e.ids] else w.confirmed)
  }

  function RunFrom(w: World, es: seq<Event>): World
    decreases |es|
  {
    if es == [] then w else RunFrom(Next(w, es[0]), es[1..])
  }

  const EMPTY := World(Db(map[], map[]), map[], map[])

  /** One queued job per run key. */
  ghost predicate OneQueuedPerKey(db: Db) {
    forall i, j :: Queued(db, i) && Queued(db, j) && db.jobs[i].key == db.jobs[j].key ==> i == j
  }

  /** Items are those of queued jobs, exactly the ids confirmed, in their order, with settled outcomes valid. */
  ghost predicate ItemsOfQueued(w: World) {
    && OnlyQueuedHaveItems(w.db) && OutcomesValid(w.db)
    && forall id :: Queued(w.db, id) ==> id in w.confirmed && Snapshot(w.db, id, w.confirmed[id])
  }

  ghost predicate OnlyQueuedHaveItems(db: Db) {
    forall k :: k in db.items ==> Queued(db, k.0)
  }

  ghost predicate OutcomesValid(db: Db) {
    forall k :: k in db.items && db.items[k].outcome.Some? ==> RowOutcome(db.items[k].outcome.value)
  }

  ghost predicate Snapshot(db: Db, id: string, ids: seq<string>) {
    && Distinct(ids) && (forall r :: (id, r) in db.items <==> r in ids)
    && forall i :: 0 <= i < |ids| ==> (id, ids[i]) in db.items && db.items[(id, ids[i])].at == i
  }

  /** The token in a queued row is the last claimer's, and there is a lease exactly when there is a token. */
  ghost predicate TokensAreClaims(w: World) {
    forall id :: Queued(w.db, id) ==>
      && (w.db.jobs[id].token == "" <==> id !in w.claimer)
      && (id in w.claimer ==> w.db.jobs[id].token == w.claimer[id])
      && (w.db.jobs[id].token == "" <==> w.db.jobs[id].lease.None?)
  }

  /** A job is queued, or finished with no holder left. */
  ghost predicate StatusesWell(db: Db) {
    forall id :: id in db.jobs ==>
      && db.jobs[id].status in {QUEUED, DONE, STOPPED}
      && (db.jobs[id].status != QUEUED ==> db.jobs[id].token == "" && db.jobs[id].lease.None? && db.jobs[id].finished.Some?)
  }

  ghost predicate Inv(w: World) {
    OneQueuedPerKey(w.db) && ItemsOfQueued(w) && TokensAreClaims(w) && StatusesWell(w.db)
  }

  lemma QueuedIsNotFinal()
    ensures QUEUED != DONE && QUEUED != STOPPED
  {
    assert |QUEUED| == 6 && |DONE| == 4 && |STOPPED| == 7;
  }

  lemma StepKeepsKeys(w: World, e: Event)
    requires Inv(w)
    ensures OneQueuedPerKey(Next(w, e).db)
  {
    QueuedIsNotFinal();
    var after := Next(w, e).db;
    forall i, j | Queued(after, i) && Queued(after, j) && after.jobs[i].key == after.jobs[j].key ensures i == j {
      assert Queued(w.db, i) && Queued(w.db, j) && w.db.jobs[i].key == w.db.jobs[j].key ==> i == j;
    }
  }

  lemma StepKeepsTokens(w: World, e: Event)
    requires Inv(w)
    ensures TokensAreClaims(Next(w, e))
  {
    QueuedIsNotFinal();
    var after := Next(w, e).db;
    forall id | Queued(after, id) ensures Queued(w.db, id) || (e.Create? && id == e.id && after.jobs[id] == NewJob(e.about, e.key, e.at)) {
    }
  }

  lemma StepKeepsStatuses(w: World, e: Event)
    requires Inv(w)
    ensures StatusesWell(Next(w, e).db)
  {
    QueuedIsNotFinal();
  }

  lemma StepKeepsItems(w: World, e: Event)
    requires Inv(w)
    ensures ItemsOfQueued(Next(w, e))
  {
    StepKeepsItemRows(w, e);
    hide *;
    var after := Next(w, e);
    ItemsTogether(after);
    forall id | Queued(after.db, id) ensures id in after.confirmed && Snapshot(after.db, id, after.confirmed[id]) {
      StepKeepsSnapshot(w, e, id);
    }
  }

  lemma ItemsTogether(w: World)
    ensures OnlyQueuedHaveItems(w.db) && OutcomesValid(w.db)
            && (forall id :: Queued(w.db, id) ==> id in w.confirmed && Snapshot(w.db, id, w.confirmed[id]))
            ==> ItemsOfQueued(w)
  {
  }

  lemma StepKeepsItemRows(w: World, e: Event)
    requires Inv(w)
    ensures OnlyQueuedHaveItems(Next(w, e).db) && OutcomesValid(Next(w, e).db)
  {
    StepKeepsItemOwners(w, e);
    StepKeepsOutcomesValid(w, e);
  }

  lemma StepKeepsItemOwners(w: World, e: Event)
    requires Inv(w)
    ensures OnlyQueuedHaveItems(Next(w, e).db)
  {
    QueuedIsNotFinal();
    var after := Apply(w.db, e);
    forall k | k in after.items ensures Queued(after, k.0) {
      assert k in w.db.items ==> Queued(w.db, k.0);
    }
  }

  lemma StepKeepsOutcomesValid(w: World, e: Event)
    requires Inv(w)
    ensures OutcomesValid(Next(w, e).db)
  {
    hide OneQueuedPerKey, TokensAreClaims, StatusesWell, Snapshot, CanCreate, CanClaim, Holds, Expired;
    var after := Apply(w.db, e);
    forall k | k in after.items && after.items[k].outcome.Some? ensures RowOutcome(after.items[k].outcome.value) {
      assert k in w.db.items && w.db.items[k].outcome.Some? ==> RowOutcome(w.db.items[k].outcome.value);
    }
  }

  lemma StepKeepsSnapshot(w: World, e: Event, id: string)
    requires Inv(w) && Queued(Next(w, e).db, id)
    ensures id in Next(w, e).confirmed && Snapshot(Next(w, e).db, id, Next(w, e).confirmed[id])
  {
    QueuedIsNotFinal();
    var after := Next(w, e);
    if Queued(w.db, id) {
      assert Snapshot(w.db, id, w.confirmed[id]);
      var ids := w.confirmed[id];
      assert after.confirmed[id] == ids;
      forall r ensures (id, r) in after.db.items <==> r in ids {
        assert (id, r) in w.db.items <==> r in ids;
      }
      forall i | 0 <= i < |ids| ensures (id, ids[i]) in after.db.items && after.db.items[(id, ids[i])].at == i {
        assert (id, ids[i]) in w.db.items && w.db.items[(id, ids[i])].at == i;
      }
    } else {
      NewSnapshot(w.db, id, e.about, e.key, e.ids, e.at);
    }
  }

  lemma NewSnapshot(db: Db, id: string, about: string, key: string, ids: seq<string>, at: int)
    requires CanCreate(db, id, key, ids) && forall k :: k in db.items ==> k.0 in db.jobs
    ensures Snapshot(Created(db, id, about, key, ids, at), id, ids)
  {
    var after := Created(db, id, about, key, ids, at);
    forall i | 0 <= i < |ids| ensures (id, ids[i]) in after.items && after.items[(id, ids[i])].at == i {
      assert ids[i] in ids && (id, ids[i]) in NewItems(id, ids);
      assert ids[IndexOf(ids, ids[i])] == ids[i];
    }
  }

  lemma StepInv(w: World, e: Event)
    requires Inv(w)
    ensures Inv(Next(w, e))
  {
    StepKeepsKeys(w, e);
    StepKeepsTokens(w, e);
    StepKeepsStatuses(w, e);
    StepKeepsItems(w, e);
  }

  lemma {:induction false} RunInv(w: World, es: seq<Event>)
    requires Inv(w)
    ensures Inv(RunFrom(w, es))
    decreases |es|
  {
    if es != [] {
      StepInv(w, es[0]);
      RunInv(Next(w, es[0]), es[1..]);
    }
  }

  /** At most one queued job per run key, and items only for queued jobs, in every reachable store. */
  lemma ReachableStore(es: seq<Event>)
    ensures var db := RunFrom(EMPTY, es).db;
            OneQueuedPerKey(db) && forall k :: k in db.items ==> Queued(db, k.0)
  {
    assert Inv(EMPTY);
    RunInv(EMPTY, es);
  }

  // ---- Fencing -------------------------------------------------------------

  /**
  Whose Settle or Finish goes through: on a queued job, the last successful
  claimer's, or, exactly while nobody has claimed the job, one with the empty
  token, which Claim refuses but which matches an unclaimed row.
  */
  lemma WritersHoldTheClaim(es: seq<Event>, id: string, runner: string)
    ensures var w := RunFrom(EMPTY, es);
            Holds(w.db, id, runner) <==>
              Queued(w.db, id) && if runner == "" then id !in w.claimer else id in w.claimer && w.claimer[id] == runner
  {
    assert Inv(EMPTY);
    RunInv(EMPTY, es);
  }

  /** A runner token is what Claim takes: with one, only the last claimer's Settle or Finish changes anything. */
  lemma OnlyTheClaimerWrites(es: seq<Event>, e: Event)
    requires (e.Settle? || e.Finish?) && e.runner != ""
    requires var w := RunFrom(EMPTY, es); !(e.id in w.claimer && w.claimer[e.id] == e.runner)
    ensures var db := RunFrom(EMPTY, es).db; Apply(db, e) == db
  {
    WritersHoldTheClaim(es, e.id, e.runner);
  }

  /** Without one, a job nobody ever claimed is finished. */
  lemma EmptyTokenFinishes()
    ensures var es := [Create("j", "", "k", [], 0, false), Finish("j", "", DONE, 1, false)];
            var w := RunFrom(EMPTY, es);
            "j" !in w.claimer && "j" in w.db.jobs && w.db.jobs["j"].status == DONE
  {
    var e0, e1 := Create("j", "", "k", [], 0, false), Finish("j", "", DONE, 1, false);
    var w1 := Next(EMPTY, e0);
    assert Holds(w1.db, "j", "");
    var w2 := Next(w1, e1);
    assert RunFrom(w2, []) == w2;
    assert [e0, e1][1..] == [e1] && [e1][1..] == [];
    assert RunFrom(w1, [e1]) == RunFrom(w2, []);
  }

  /** A held job passes to another runner exactly at or after the end of its lease. */
  lemma TakeoverNeedsExpiry(es: seq<Event>, id: string, runner: string, now: int)
    requires var db := RunFrom(EMPTY, es).db; Queued(db, id) && db.jobs[id].token != "" && db.jobs[id].token != runner
    requires runner != ""
    ensures var db := RunFrom(EMPTY, es).db;
            db.jobs[id].lease.Some? && (CanClaim(db, id, runner, now) <==> now >= db.jobs[id].lease.value)
  {
    assert Inv(EMPTY);
    RunInv(EMPTY, es);
  }

  // ---- Outcomes and tallies ------------------------------------------------

  /** The job stays in the store through the whole run. */
  ghost predicate Kept(w: World, es: seq<Event>, id: string)
    decreases |es|
  {
    id in w.db.jobs && (es == [] || Kept(Next(w, es[0]), es[1..], id))
  }

  lemma StepKeepsOutcome(w: World, e: Event, k: (string, string), o: string)
    requires Inv(w) && k in w.db.items && w.db.items[k].outcome == Some(o)
    ensures k in Next(w, e).db.items ==> Next(w, e).db.items[k].outcome == Some(o)
  {
    assert Queued(w.db, k.0);
  }

  /** Once set, an outcome stays until the job is finished and its items go. */
  lemma {:induction false} OutcomeNeverOverwritten(w: World, es: seq<Event>, k: (string, string), o: string)
    requires Inv(w) && Kept(w, es, k.0) && k in w.db.items && w.db.items[k].outcome == Some(o)
    ensures var end := RunFrom(w, es).db;
            if k in end.items then end.items[k].outcome == Some(o) else k.0 in end.jobs && end.jobs[k.0].status != QUEUED
    decreases |es|
  {
    if es != [] {
      var next := Next(w, es[0]);
      StepInv(w, es[0]);
      StepKeepsOutcome(w, es[0], k, o);
      assert Queued(w.db, k.0);
      if k in next.db.items {
        OutcomeNeverOverwritten(next, es[1..], k, o);
      } else {
        LeavesOnlyByFinish(w, es[0], k);
        FinishedNeverChanges(next, es[1..], k.0);
        NoItemsWhenFinished(next, es[1..], k);
      }
    } else {
      KeptAtEnd(w, es, k.0);
    }
  }

  lemma LeavesOnlyByFinish(w: World, e: Event, k: (string, string))
    requires Inv(w) && k in w.db.items && k !in Next(w, e).db.items && k.0 in Next(w, e).db.jobs
    ensures Next(w, e).db.jobs[k.0].status != QUEUED
  {
    QueuedIsNotFinal();
    assert Queued(w.db, k.0);
  }

  lemma NoItemsWhenFinished(w: World, es: seq<Event>, k: (string, string))
    requires Inv(w) && Kept(w, es, k.0) && w.db.jobs[k.0].status != QUEUED
    ensures k !in RunFrom(w, es).db.items
  {
    FinishedNeverChanges(w, es, k.0);
    RunInv(w, es);
  }

  lemma {:induction false} KeptAtEnd(w: World, es: seq<Event>, id: string)
    requires Kept(w, es, id)
    ensures id in RunFrom(w, es).db.jobs
    decreases |es|
  {
    if es != [] { KeptAtEnd(Next(w, es[0]), es[1..], id); }
  }

  /** What a finished row promises. */
  predicate SameResult(a: Job, b: Job) {
    a.status == b.status && a.done == b.done && a.skipped == b.skipped && a.failed == b.failed && a.finished == b.finished
  }

  /** A finished job's status and tallies never change while it is kept. */
  lemma {:induction false} FinishedNeverChanges(w: World, es: seq<Event>, id: string)
    requires Inv(w) && Kept(w, es, id) && w.db.jobs[id].status != QUEUED
    ensures id in RunFrom(w, es).db.jobs && SameResult(RunFrom(w, es).db.jobs[id], w.db.jobs[id])
    decreases |es|
  {
    if es != [] {
      StepInv(w, es[0]);
      FinishedStep(w, es[0], id);
      hide *;
      KeptRun(w, es, id);
      FinishedNeverChanges(Next(w, es[0]), es[1..], id);
      SameResultTransitive(RunFrom(w, es).db.jobs[id], Next(w, es[0]).db.jobs[id], w.db.jobs[id]);
    }
  }

  lemma SameResultTransitive(a: Job, b: Job, c: Job)
    ensures SameResult(a, b) && SameResult(b, c) ==> SameResult(a, c)
  {
  }

  lemma KeptRun(w: World, es: seq<Event>, id: string)
    requires Kept(w, es, id) && es != []
    ensures Kept(Next(w, es[0]), es[1..], id) && RunFrom(w, es) == RunFrom(Next(w, es[0]), es[1..]) && id in Next(w, es[0]).db.jobs
  {
  }

  lemma FinishedStep(w: World, e: Event, id: string)
    requires id in w.db.jobs && w.db.jobs[id].status != QUEUED && id in Next(w, e).db.jobs
    ensures SameResult(Next(w, e).db.jobs[id], w.db.jobs[id]) && Next(w, e).db.jobs[id].status != QUEUED
  {
  }

  function SettledIds(db: Db, id: string): set<(string, string)> {
    set k | k in db.items && k.0 == id && db.items[k].outcome.Some?
  }

  function Confirmed(id: string, ids: seq<string>): set<(string, string)> {
    set r | r in ids :: (id, r)
  }

  /** The tally at Finish counts each settled id once; it is the number confirmed exactly when none was pending. */
  lemma FinishTallies(es: seq<Event>, e: Event)
    requires e.Finish? && (e.status == DONE || e.status == STOPPED) && !e.fails && Holds(RunFrom(EMPTY, es).db, e.id, e.runner)
    ensures var w := RunFrom(EMPTY, es);
            var job := Apply(w.db, e).jobs[e.id];
            && job.status == e.status && job.done + job.skipped + job.failed == |SettledIds(w.db, e.id)|
            && e.id in w.confirmed
            && (job.done + job.skipped + job.failed == |w.confirmed[e.id]|
                <==> forall k :: k in w.db.items && k.0 == e.id ==> w.db.items[k].outcome.Some?)
  {
    var w := RunFrom(EMPTY, es);
    assert Inv(EMPTY);
    RunInv(EMPTY, es);
    SettledSplits(w, e.id);
    var all, settled := Confirmed(e.id, w.confirmed[e.id]), SettledIds(w.db, e.id);
    ConfirmedCount(e.id, w.confirmed[e.id]);
    assert Snapshot(w.db, e.id, w.confirmed[e.id]);
    forall k ensures k in all <==> k in w.db.items && k.0 == e.id {
      assert k == (k.0, k.1);
    }
    assert settled <= all;
    if |settled| == |all| {
      SubsetOfSameSize(settled, all);
    }
    if forall k :: k in w.db.items && k.0 == e.id ==> w.db.items[k].outcome.Some? {
      assert settled == all;
    }
  }

  lemma SubsetOfSameSize<T>(a: set<T>, b: set<T>)
    requires a <= b && |a| == |b|
    ensures a == b
  {
    assert b == a + (b - a) && |b| == |a| + |b - a|;
  }

  lemma SettledSplits(w: World, id: string)
    requires ItemsOfQueued(w)
    ensures |SettledIds(w.db, id)| == |WithOutcome(w.db, id, ROW_DONE)| + |WithOutcome(w.db, id, ROW_SKIPPED)| + |WithOutcome(w.db, id, ROW_FAILED)|
  {
    var a, b, c := WithOutcome(w.db, id, ROW_DONE), WithOutcome(w.db, id, ROW_SKIPPED), WithOutcome(w.db, id, ROW_FAILED);
    OutcomesApart(w.db, id);
    SettledIsUnion(w.db, id);
    hide *;
    assert |a + b| == |a| + |b|;
    assert |a + b + c| == |a + b| + |c|;
  }

  lemma OutcomesApart(db: Db, id: string)
    ensures WithOutcome(db, id, ROW_DONE) !! WithOutcome(db, id, ROW_SKIPPED)
    ensures WithOutcome(db, id, ROW_DONE) + WithOutcome(db, id, ROW_SKIPPED) !! WithOutcome(db, id, ROW_FAILED)
  {
    assert |ROW_DONE| == 4 && |ROW_SKIPPED| == 7 && |ROW_FAILED| == 6;
  }

  lemma SettledIsUnion(db: Db, id: string)
    requires OutcomesValid(db)
    ensures SettledIds(db, id) == WithOutcome(db, id, ROW_DONE) + WithOutcome(db, id, ROW_SKIPPED) + WithOutcome(db, id, ROW_FAILED)
  {
  }

  lemma {:induction false} ConfirmedCount(id: string, ids: seq<string>)
    requires Distinct(ids)
    ensures |Confirmed(id, ids)| == |ids|
  {
    if ids != [] {
      var front, last := ids[..|ids| - 1], ids[|ids| - 1];
      assert ids == front + [last];
      ConfirmedCount(id, front);
      assert Confirmed(id, ids) == Confirmed(id, front) + {(id, last)};
      assert last !in front;
    }
  }
}
