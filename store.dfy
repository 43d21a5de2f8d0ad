/**
 * The local task table behind `TaskRepositoryImpl`, as values: a sequence
 * of rows with pairwise distinct ids (the uniqueness constraint on `id`),
 * kept in insertion order, and what each repository operation does to it.
 * The repository class is specified by these functions.
 */
module Store {
  import opened Results
  import opened Models
  import opened Text
  import opened Dto

  /** The description every hydrated row gets, since the remote items have none. */
  const HydratedDetails := "Lorem ipsum dolor sit amet, consectetur adipiscing elit. Aenean dapibus libero vitae orci molestie volutpat."

  /** Domain and code of the repository's own "no such row" errors. */
  const RepositoryErrorDomain := "TaskRepositoryError"
  const NotFoundCode := 404

  /**
   * The error a save reports when an inserted row repeats an id already
   * stored and the context keeps the default (error) merge policy:
   * `NSManagedObjectConstraintMergeError` in the Cocoa domain.
   */
  const ConstraintConflict := Error("NSCocoaErrorDomain", 133021,
    "The operation couldn’t be completed. (Cocoa error 133021.)")

  /** The not-found failure `updateTask` reports. */
  function UpdateNotFound(id: int): (e: Error)
    ensures e.domain == RepositoryErrorDomain && e.code == NotFoundCode
  {
    Error(RepositoryErrorDomain, NotFoundCode, "Task with id " + IntToDecimal(id) + " not found")
  }

  /** The not-found failure `deleteTask` reports. */
  function DeleteNotFound(id: int): (e: Error)
    ensures e.domain == RepositoryErrorDomain && e.code == NotFoundCode
  {
    Error(RepositoryErrorDomain, NotFoundCode, "Задача с id " + IntToDecimal(id) + " не найдена")
  }

  /**
   * What the persistence engine contributes and is not modelled: the
   * case- and diacritic-folding of `CONTAINS[cd]`, and the "dd/MM/yy"
   * date formatter of `toDTO`.
   */
  datatype Engine = Engine(fold: string -> string, format: Instant -> string)

  /**
   * The outcome of the engine's throwing calls in one operation:
   * `readFault` for `context.fetch` / `context.execute`, `writeFault` for
   * `context.save`; `None` means the call succeeds.
   */
  datatype Io = Io(readFault: Option<Error>, writeFault: Option<Error>)

  /** The table after a mutating operation, and the result its completion receives. */
  datatype Written = Written(rows: seq<TaskEntity>, outcome: Outcome<Error>)

  /** The optional arguments of `updateTask`; `None` keeps the stored value. */
  datatype Patch = Patch(
    title: Option<string>,
    details: Option<string>,
    date: Option<Instant>,
    completed: Option<bool>)

  // ---------------------------------------------------------------------
  // Rows keyed by id

  /** The uniqueness constraint on `id`. */
  ghost predicate UniqueIds(rows: seq<TaskEntity>) {
    forall i, j :: 0 <= i < j < |rows| ==> rows[i].id != rows[j].id
  }

  function Ids(rows: seq<TaskEntity>): set<int> {
    set i | 0 <= i < |rows| :: rows[i].id
  }

  /** The position a fetch with predicate `id == %lld` and `fetchLimit = 1` finds first. */
  function IndexOf(rows: seq<TaskEntity>, id: int): (r: Option<nat>)
    ensures r.Some? ==> r.value < |rows| && rows[r.value].id == id
    ensures r.Some? ==> forall k :: 0 <= k < r.value ==> rows[k].id != id
    ensures r.None? ==> forall k :: 0 <= k < |rows| ==> rows[k].id != id
    ensures r.None? <==> id !in Ids(rows)
  {
    if rows == [] then None
    else if rows[0].id == id then Some(0)
    else
      var rest := IndexOf(rows[1..], id);
      assert forall k :: 1 <= k < |rows| ==> rows[k] == rows[1..][k - 1];
      match rest
      case Some(k) => Some(k + 1)
      case None =>
        None
  }

  /** The row stored under `id`, if any. */
  function Lookup(rows: seq<TaskEntity>, id: int): (r: Option<TaskEntity>)
    ensures r.Some? <==> id in Ids(rows)
    ensures r.Some? ==> r.value.id == id && r.value in rows
  {
    match IndexOf(rows, id)
    case Some(k) => Some(rows[k])
    case None => None
  }

  /** Under the constraint, the row at position `i` is the one stored under its id. */
  lemma LookupAt(rows: seq<TaskEntity>, i: int)
    requires UniqueIds(rows) && 0 <= i < |rows|
    ensures Lookup(rows, rows[i].id) == Some(rows[i])
  {
  }

  /** Two tables with the same id at every position have the same ids. */
  lemma SameIdsPointwise(a: seq<TaskEntity>, b: seq<TaskEntity>)
    requires |a| == |b|
    requires forall i :: 0 <= i < |a| ==> a[i].id == b[i].id
    ensures Ids(a) == Ids(b)
  {
    forall x | x in Ids(a) ensures x in Ids(b) {
      var i :| 0 <= i < |a| && a[i].id == x;
      assert b[i].id == x;
    }
    forall x | x in Ids(b) ensures x in Ids(a) {
      var i :| 0 <= i < |b| && b[i].id == x;
      assert a[i].id == x;
    }
  }

  /** Overwriting the row at position `k` with a row of the same id touches no other id. */
  lemma ReplaceFrame(rows: seq<TaskEntity>, k: int, e: TaskEntity)
    requires UniqueIds(rows) && 0 <= k < |rows| && rows[k].id == e.id
    ensures UniqueIds(rows[k := e])
    ensures Ids(rows[k := e]) == Ids(rows)
    ensures Lookup(rows[k := e], e.id) == Some(e)
    ensures forall id :: id != e.id ==> Lookup(rows[k := e], id) == Lookup(rows, id)
  {
    var r := rows[k := e];
    SameIdsPointwise(r, rows);
    LookupAt(r, k);
    forall id | id != e.id ensures Lookup(r, id) == Lookup(rows, id) {
      match IndexOf(rows, id)
      case Some(i) =>
        LookupAt(rows, i);
        LookupAt(r, i);
      case None =>
    }
  }

  /** Appending a row under a fresh id touches no other id. */
  lemma AppendFrame(rows: seq<TaskEntity>, e: TaskEntity)
    requires UniqueIds(rows) && e.id !in Ids(rows)
    ensures UniqueIds(rows + [e])
    ensures Ids(rows + [e]) == Ids(rows) + {e.id}
    ensures Lookup(rows + [e], e.id) == Some(e)
    ensures forall id :: id != e.id ==> Lookup(rows + [e], id) == Lookup(rows, id)
  {
    var r := rows + [e];
    assert forall i :: 0 <= i < |rows| ==> rows[i].id in Ids(rows);
    assert UniqueIds(r);
    assert Ids(r) == Ids(rows) + {e.id} by {
      forall x | x in Ids(r) ensures x in Ids(rows) + {e.id} {
        var i :| 0 <= i < |r| && r[i].id == x;
        if i < |rows| { assert rows[i].id == x; }
      }
      forall x | x in Ids(rows) + {e.id} ensures x in Ids(r) {
        if x == e.id { assert r[|rows|].id == x; }
        else {
          var i :| 0 <= i < |rows| && rows[i].id == x;
          assert r[i].id == x;
        }
      }
    }
    LookupAt(r, |rows|);
    forall id | id != e.id ensures Lookup(r, id) == Lookup(rows, id) {
      match IndexOf(rows, id)
      case Some(i) =>
        LookupAt(rows, i);
        LookupAt(r, i);
      case None =>
    }
  }

  /**
   * Inserting `e` under the merge policy of `saveTasks`
   * (`NSMergeByPropertyObjectTrumpMergePolicy`): a row already stored under
   * `e.id` is replaced in place; otherwise `e` is added at the end.
   */
  function Upsert(rows: seq<TaskEntity>, e: TaskEntity): (r: seq<TaskEntity>)
    requires UniqueIds(rows)
    ensures UniqueIds(r)
  {
    match IndexOf(rows, e.id)
    case Some(k) => ReplaceFrame(rows, k, e); rows[k := e]
    case None => AppendFrame(rows, e); rows + [e]
  }

  /**
   * What an upsert does to the table: the id set gains `e.id`, the count
   * grows only for a new id, `e` is stored under its id and every other id
   * keeps its row.
   */
  lemma UpsertFrame(rows: seq<TaskEntity>, e: TaskEntity)
    requires UniqueIds(rows)
    ensures Ids(Upsert(rows, e)) == Ids(rows) + {e.id}
    ensures |Upsert(rows, e)| == if e.id in Ids(rows) then |rows| else |rows| + 1
    ensures Lookup(Upsert(rows, e), e.id) == Some(e)
    ensures forall id :: id != e.id ==> Lookup(Upsert(rows, e), id) == Lookup(rows, id)
  {
    match IndexOf(rows, e.id)
    case Some(k) => ReplaceFrame(rows, k, e);
    case None => AppendFrame(rows, e);
  }

  /** The rows after removing position `k`, position by position. */
  lemma RemovedAt(rows: seq<TaskEntity>, k: int)
    requires 0 <= k < |rows|
    ensures |rows[..k] + rows[k + 1..]| == |rows| - 1
    ensures forall i :: 0 <= i < k ==> (rows[..k] + rows[k + 1..])[i] == rows[i]
    ensures forall i :: k < i < |rows| ==> (rows[..k] + rows[k + 1..])[i - 1] == rows[i]
  {
  }

  /** Removing the row at position `k` keeps ids unique and removes exactly its id. */
  lemma RemoveIds(rows: seq<TaskEntity>, k: int)
    requires UniqueIds(rows) && 0 <= k < |rows|
    ensures UniqueIds(rows[..k] + rows[k + 1..])
    ensures Ids(rows[..k] + rows[k + 1..]) == Ids(rows) - {rows[k].id}
  {
    var r := rows[..k] + rows[k + 1..];
    RemovedAt(rows, k);
    forall i, j | 0 <= i < j < |r| ensures r[i].id != r[j].id {
      var i' := if i < k then i else i + 1;
      var j' := if j < k then j else j + 1;
      assert r[i] == rows[i'] && r[j] == rows[j'] && i' < j';
    }
    forall x | x in Ids(r) ensures x in Ids(rows) - {rows[k].id} {
      var i :| 0 <= i < |r| && r[i].id == x;
      var i' := if i < k then i else i + 1;
      assert rows[i'].id == x && i' != k;
    }
    forall x | x in Ids(rows) - {rows[k].id} ensures x in Ids(r) {
      var i :| 0 <= i < |rows| && rows[i].id == x;
      if i < k { assert r[i].id == x; } else { assert i != k && r[i - 1].id == x; }
    }
  }

  /** Removing the row at position `k` removes its id and touches no other. */
  lemma RemoveFrame(rows: seq<TaskEntity>, k: int)
    requires UniqueIds(rows) && 0 <= k < |rows|
    ensures UniqueIds(rows[..k] + rows[k + 1..])
    ensures Ids(rows[..k] + rows[k + 1..]) == Ids(rows) - {rows[k].id}
    ensures Lookup(rows[..k] + rows[k + 1..], rows[k].id) == None
    ensures forall id :: id != rows[k].id ==> Lookup(rows[..k] + rows[k + 1..], id) == Lookup(rows, id)
  {
    RemoveIds(rows, k);
    forall id | id != rows[k].id ensures Lookup(rows[..k] + rows[k + 1..], id) == Lookup(rows, id) {
      RemoveKeepsLookup(rows, k, id);
    }
  }

  /** Removing the row at position `k` leaves the row under any other id where it was. */
  lemma RemoveKeepsLookup(rows: seq<TaskEntity>, k: int, id: int)
    requires UniqueIds(rows) && 0 <= k < |rows| && id != rows[k].id
    ensures Lookup(rows[..k] + rows[k + 1..], id) == Lookup(rows, id)
  {
    var r := rows[..k] + rows[k + 1..];
    RemoveIds(rows, k);
    match IndexOf(rows, id)
    case Some(i) =>
      LookupAt(rows, i);
      var j := if i < k then i else i - 1;
      assert r[j] == rows[i];
      LookupAt(r, j);
    case None =>
      assert id !in Ids(r);
  }

  // ---------------------------------------------------------------------
  // saveTasks: hydration of remote items

  /**
   * The row `saveTasks` creates for a remote item whose `Date()` reading
   * is `now`: `todo` becomes the title, `completed` the completion state,
   * and the description is the fixed placeholder.
   */
  function Hydrate(item: TaskItem, now: Instant): (e: TaskEntity)
    ensures e.id == item.id && e.userId == item.userId && e.isCompleted == item.completed
    ensures e.title == Some(item.todo) && e.details == Some(HydratedDetails)
    ensures e.createdAt == Some(now)
  {
    TaskEntity(item.id, Some(item.todo), Some(HydratedDetails), Some(now), item.completed, item.userId)
  }

  function ItemIds(items: seq<TaskItem>): set<int> {
    set i | 0 <= i < |items| :: items[i].id
  }

  /**
   * The table after the `forEach` of `saveTasks` has inserted every item,
   * item `i` stamped with the clock's `i`-th reading.
   */
  function SaveAll(rows: seq<TaskEntity>, items: seq<TaskItem>, clock: nat -> Instant): (r: seq<TaskEntity>)
    requires UniqueIds(rows)
    ensures UniqueIds(r)
    decreases |items|
  {
    if items == [] then rows
    else
      var n := |items| - 1;
      Upsert(SaveAll(rows, items[..n], clock), Hydrate(items[n], clock(n)))
  }

  /** After the `forEach` the stored ids are the old ones plus every item's id. */
  lemma {:induction false} SaveAllIds(rows: seq<TaskEntity>, items: seq<TaskItem>, clock: nat -> Instant)
    requires UniqueIds(rows)
    ensures Ids(SaveAll(rows, items, clock)) == Ids(rows) + ItemIds(items)
    decreases |items|
  {
    if items != [] {
      var n := |items| - 1;
      SaveAllIds(rows, items[..n], clock);
      UpsertFrame(SaveAll(rows, items[..n], clock), Hydrate(items[n], clock(n)));
      ItemIdsSnoc(items);
    }
  }

  /** The ids of a batch are those of all but its last item, plus the last one's. */
  lemma ItemIdsSnoc(items: seq<TaskItem>)
    requires items != []
    ensures ItemIds(items) == ItemIds(items[..|items| - 1]) + {items[|items| - 1].id}
  {
    var n := |items| - 1;
    forall x | x in ItemIds(items) ensures x in ItemIds(items[..n]) + {items[n].id} {
      var i :| 0 <= i < |items| && items[i].id == x;
      if i < n { assert items[..n][i].id == x; }
    }
    forall x | x in ItemIds(items[..n]) ensures x in ItemIds(items) {
      var i :| 0 <= i < n && items[..n][i].id == x;
      assert items[i].id == x;
    }
  }

  /** The position of the last item carrying `id`, if any. */
  function LastIndexOf(items: seq<TaskItem>, id: int): (r: Option<nat>)
    ensures r.Some? ==> r.value < |items| && items[r.value].id == id
    ensures r.Some? ==> forall k :: r.value < k < |items| ==> items[k].id != id
    ensures r.None? ==> forall k :: 0 <= k < |items| ==> items[k].id != id
    decreases |items|
  {
    if items == [] then None
    else if items[|items| - 1].id == id then Some(|items| - 1)
    else LastIndexOf(items[..|items| - 1], id)
  }

  /**
   * What `saveTasks` leaves under each id: the row hydrated from the LAST
   * item with that id (a later duplicate wins), or, for an id no item
   * carries, the row stored before.
   */
  lemma {:induction false} SaveAllLookup(rows: seq<TaskEntity>, items: seq<TaskItem>, clock: nat -> Instant, id: int)
    requires UniqueIds(rows)
    ensures Lookup(SaveAll(rows, items, clock), id) ==
      match LastIndexOf(items, id)
      case Some(i) => Some(Hydrate(items[i], clock(i)))
      case None => Lookup(rows, id)
    decreases |items|
  {
    if items != [] {
      var n := |items| - 1;
      SaveAllLookup(rows, items[..n], clock, id);
      UpsertFrame(SaveAll(rows, items[..n], clock), Hydrate(items[n], clock(n)));
      if items[n].id != id {
        assert LastIndexOf(items, id) == LastIndexOf(items[..n], id);
      }
    }
  }

  /** Every saved item is stored; saving never duplicates a row; other rows stay. */
  lemma SaveAllKeepsOthers(rows: seq<TaskEntity>, items: seq<TaskItem>, clock: nat -> Instant, id: int)
    requires UniqueIds(rows) && id !in ItemIds(items)
    ensures Lookup(SaveAll(rows, items, clock), id) == Lookup(rows, id)
  {
    SaveAllLookup(rows, items, clock, id);
  }

  /**
   * Saving the same items again, with the same clock readings, stores the
   * same row under every id: a repeated hydration changes nothing.
   */
  lemma SaveAllRepeat(rows: seq<TaskEntity>, items: seq<TaskItem>, clock: nat -> Instant, id: int)
    requires UniqueIds(rows)
    ensures Lookup(SaveAll(SaveAll(rows, items, clock), items, clock), id) == Lookup(SaveAll(rows, items, clock), id)
  {
    var once := SaveAll(rows, items, clock);
    SaveAllLookup(rows, items, clock, id);
    SaveAllLookup(once, items, clock, id);
  }

  // ---------------------------------------------------------------------
  // Listing order: createdAt descending

  /**
   * `a` sorts no later than `b` under `NSSortDescriptor(key: "createdAt",
   * ascending: false)`; a missing date sorts as the oldest (SQLite orders
   * NULL below every value).
   */
  predicate AtLeastAsRecent(a: TaskEntity, b: TaskEntity) {
    match (a.createdAt, b.createdAt)
    case (_, None) => true
    case (None, Some(_)) => false
    case (Some(x), Some(y)) => x >= y
  }

  ghost predicate NewestFirst(s: seq<TaskEntity>) {
    forall i, j :: 0 <= i < j < |s| ==> AtLeastAsRecent(s[i], s[j])
  }

  /** `x` sorts no later than any row of `s`. */
  ghost predicate NoneMoreRecent(x: TaskEntity, s: seq<TaskEntity>) {
    forall k :: 0 <= k < |s| ==> AtLeastAsRecent(x, s[k])
  }

  lemma RecencyTransitive(a: TaskEntity, b: TaskEntity, c: TaskEntity)
    requires AtLeastAsRecent(a, b) && AtLeastAsRecent(b, c)
    ensures AtLeastAsRecent(a, c)
  {
  }

  /** A row in front of a sorted table keeps it sorted when it is no older than any of it. */
  lemma ConsNewestFirst(x: TaskEntity, s: seq<TaskEntity>)
    requires NewestFirst(s) && NoneMoreRecent(x, s)
    ensures NewestFirst([x] + s)
  {
    var r := [x] + s;
    forall i, j | 0 <= i < j < |r| ensures AtLeastAsRecent(r[i], r[j]) {
      if i > 0 { assert r[i] == s[i - 1] && r[j] == s[j - 1]; }
      else { assert r[j] == s[j - 1]; }
    }
  }

  /** Places `x` in front of the first row that is not more recent than it. */
  function InsertByRecency(x: TaskEntity, s: seq<TaskEntity>): seq<TaskEntity> {
    if s == [] || AtLeastAsRecent(x, s[0]) then [x] + s
    else [s[0]] + InsertByRecency(x, s[1..])
  }

  /** Inserting keeps exactly the rows there were plus `x`, and keeps a sorted table sorted. */
  lemma {:induction false} InsertSorted(x: TaskEntity, s: seq<TaskEntity>)
    ensures multiset(InsertByRecency(x, s)) == multiset(s) + multiset{x}
    ensures NewestFirst(s) ==> NewestFirst(InsertByRecency(x, s))
  {
    if s == [] || AtLeastAsRecent(x, s[0]) {
      if NewestFirst(s) {
        assert NoneMoreRecent(x, s) by {
          forall k | 0 <= k < |s| ensures AtLeastAsRecent(x, s[k]) {
            if k > 0 { RecencyTransitive(x, s[0], s[k]); }
          }
        }
        ConsNewestFirst(x, s);
      }
    } else {
      var rest := InsertByRecency(x, s[1..]);
      InsertSorted(x, s[1..]);
      assert s == [s[0]] + s[1..];
      if NewestFirst(s) {
        TailNewestFirst(s);
        assert NoneMoreRecent(s[0], rest) by {
          forall k | 0 <= k < |rest| ensures AtLeastAsRecent(s[0], rest[k]) {
            assert rest[k] in multiset(rest);
            if rest[k] != x {
              assert rest[k] in multiset(s[1..]);
              var j :| 0 <= j < |s[1..]| && s[1..][j] == rest[k];
              assert s[j + 1] == rest[k];
            }
          }
        }
        ConsNewestFirst(s[0], rest);
      }
    }
  }

  /**
   * The order a fetch sorted by `createdAt` descending returns: newest
   * first, rows of equal date in the order they were stored.
   */
  function SortByRecency(s: seq<TaskEntity>): seq<TaskEntity> {
    if s == [] then [] else InsertByRecency(s[0], SortByRecency(s[1..]))
  }

  /** Sorting gives a table sorted newest first holding the same rows. */
  lemma {:induction false} SortSorted(s: seq<TaskEntity>)
    ensures NewestFirst(SortByRecency(s))
    ensures multiset(SortByRecency(s)) == multiset(s)
  {
    if s != [] {
      SortSorted(s[1..]);
      InsertSorted(s[0], SortByRecency(s[1..]));
      assert s == [s[0]] + s[1..];
    }
  }

  /** The rows of `s` that satisfy `p`, in their order in `s`. */
  function Filter(p: TaskEntity -> bool, s: seq<TaskEntity>): (r: seq<TaskEntity>)
    ensures forall k :: 0 <= k < |r| ==> r[k] in s && p(r[k])
    ensures forall y :: y in s && p(y) ==> y in r
    ensures NewestFirst(s) ==> NewestFirst(r)
  {
    if s == [] then []
    else
      var rest := Filter(p, s[1..]);
      assert forall y :: y in s ==> y == s[0] || y in s[1..];
      assert NewestFirst(s) ==> NewestFirst(s[1..]) by {
        if NewestFirst(s) { TailNewestFirst(s); }
      }
      if p(s[0]) then
        assert NewestFirst(s) ==> NewestFirst([s[0]] + rest) by {
          if NewestFirst(s) {
            assert NoneMoreRecent(s[0], rest) by {
              forall k | 0 <= k < |rest| ensures AtLeastAsRecent(s[0], rest[k]) {
                var j :| 0 <= j < |s[1..]| && s[1..][j] == rest[k];
                assert s[j + 1] == rest[k];
              }
            }
            ConsNewestFirst(s[0], rest);
          }
        }
        [s[0]] + rest
      else rest
  }

  /** The rows after the first of a sorted table are sorted. */
  lemma TailNewestFirst(s: seq<TaskEntity>)
    requires s != [] && NewestFirst(s)
    ensures NewestFirst(s[1..])
  {
    forall i, j | 0 <= i < j < |s[1..]| ensures AtLeastAsRecent(s[1..][i], s[1..][j]) {
      assert s[1..][i] == s[i + 1] && s[1..][j] == s[j + 1];
    }
  }

  /** Unfolding `Filter` once at the front. */
  lemma FilterCons(p: TaskEntity -> bool, x: TaskEntity, s: seq<TaskEntity>)
    ensures Filter(p, [x] + s) == if p(x) then [x] + Filter(p, s) else Filter(p, s)
  {
    assert ([x] + s)[1..] == s;
  }

  /** A row no older than the head of a sorted table goes in front of any part of it. */
  lemma InsertInFront(p: TaskEntity -> bool, x: TaskEntity, s: seq<TaskEntity>)
    requires NewestFirst(s) && s != [] && AtLeastAsRecent(x, s[0])
    ensures InsertByRecency(x, Filter(p, s)) == [x] + Filter(p, s)
  {
    var f := Filter(p, s);
    if f != [] {
      assert f[0] in s;
      var j :| 0 <= j < |s| && s[j] == f[0];
      if j > 0 { RecencyTransitive(x, s[0], s[j]); }
    }
  }

  /** Filtering a sorted table, then inserting, is inserting, then filtering. */
  lemma {:induction false} FilterInsert(p: TaskEntity -> bool, x: TaskEntity, s: seq<TaskEntity>)
    requires NewestFirst(s)
    ensures Filter(p, InsertByRecency(x, s)) ==
      if p(x) then InsertByRecency(x, Filter(p, s)) else Filter(p, s)
  {
    if s == [] {
      FilterCons(p, x, []);
    } else if AtLeastAsRecent(x, s[0]) {
      assert InsertByRecency(x, s) == [x] + s;
      FilterCons(p, x, s);
      InsertInFront(p, x, s);
    } else {
      var t := s[1..];
      assert s == [s[0]] + t;
      assert InsertByRecency(x, s) == [s[0]] + InsertByRecency(x, t);
      FilterInsert(p, x, t);
      FilterCons(p, s[0], InsertByRecency(x, t));
      FilterCons(p, s[0], t);
      if p(s[0]) && p(x) {
        var ft := Filter(p, t);
        assert Filter(p, s) == [s[0]] + ft;
        assert ([s[0]] + ft)[0] == s[0] && ([s[0]] + ft)[1..] == ft;
        assert InsertByRecency(x, [s[0]] + ft) == [s[0]] + InsertByRecency(x, ft);
      }
    }
  }

  /**
   * Sorting commutes with filtering: filtering the listing gives the same
   * sequence as sorting the filtered rows.
   */
  lemma {:induction false} FilterSortCommute(p: TaskEntity -> bool, s: seq<TaskEntity>)
    ensures Filter(p, SortByRecency(s)) == SortByRecency(Filter(p, s))
  {
    if s != [] {
      FilterSortCommute(p, s[1..]);
      SortSorted(s[1..]);
      FilterInsert(p, s[0], SortByRecency(s[1..]));
    }
  }

  /** `title CONTAINS[cd] query` for a stored row: a nil title matches nothing. */
  predicate TitleMatches(fold: string -> string, query: string, e: TaskEntity) {
    e.title.Some? && Contains(fold(e.title.value), fold(query))
  }

  // ---------------------------------------------------------------------
  // The repository's operations

  /** `saveTasks`: all items or, when the save fails, none of them. */
  function SaveTasks(rows: seq<TaskEntity>, items: seq<TaskItem>, clock: nat -> Instant, io: Io): (w: Written)
    requires UniqueIds(rows)
    ensures UniqueIds(w.rows)
    ensures io.writeFault.Some? ==> w == Written(rows, Fail(io.writeFault.value))
    ensures io.writeFault.None? ==> w.outcome == Pass && Ids(w.rows) == Ids(rows) + ItemIds(items)
  {
    match io.writeFault
    case Some(e) => Written(rows, Fail(e))
    case None => SaveAllIds(rows, items, clock); Written(SaveAll(rows, items, clock), Pass)
  }

  /** The rows a fetch sorted by `createdAt` descending returns. */
  function Listing(rows: seq<TaskEntity>): seq<TaskEntity> {
    SortByRecency(rows)
  }

  /** The listing holds every row exactly once, newest first. */
  lemma ListingOrder(rows: seq<TaskEntity>)
    ensures NewestFirst(Listing(rows))
    ensures multiset(Listing(rows)) == multiset(rows)
  {
    SortSorted(rows);
  }

  /** `fetchLocalTodos`: every row once, newest first, as records for the screens. */
  function FetchLocal(rows: seq<TaskEntity>, engine: Engine, io: Io): (r: Result<seq<TaskListEntity>, Error>)
    ensures io.readFault.Some? ==> r == Failure(io.readFault.value)
    ensures io.readFault.None? ==> r == Success(ToDTOs(Listing(rows), engine.format))
  {
    match io.readFault
    case Some(e) => Failure(e)
    case None => Success(ToDTOs(Listing(rows), engine.format))
  }

  /** The fetch predicate `title CONTAINS[cd] query`. */
  function MatchesQuery(fold: string -> string, query: string): TaskEntity -> bool {
    e => TitleMatches(fold, query, e)
  }

  lemma SameMembers(a: seq<TaskEntity>, b: seq<TaskEntity>)
    requires multiset(a) == multiset(b)
    ensures forall y :: y in a <==> y in b
  {
    forall y ensures y in a <==> y in b {
      assert y in a <==> y in multiset(a);
      assert y in b <==> y in multiset(b);
    }
  }

  /**
   * The rows a search fetch returns: the predicate is applied by the
   * store, then the sort descriptor.
   */
  function SearchRows(rows: seq<TaskEntity>, fold: string -> string, query: string): seq<TaskEntity> {
    SortByRecency(Filter(MatchesQuery(fold, query), rows))
  }

  /**
   * A search returns exactly the stored rows whose title matches, newest
   * first, and is the listing with the non-matching rows left out.
   */
  lemma SearchRowsSpec(rows: seq<TaskEntity>, fold: string -> string, query: string)
    ensures SearchRows(rows, fold, query) == Filter(MatchesQuery(fold, query), Listing(rows))
    ensures NewestFirst(SearchRows(rows, fold, query))
    ensures forall k :: 0 <= k < |SearchRows(rows, fold, query)| ==>
      SearchRows(rows, fold, query)[k] in rows && TitleMatches(fold, query, SearchRows(rows, fold, query)[k])
    ensures forall e :: e in rows && TitleMatches(fold, query, e) ==> e in SearchRows(rows, fold, query)
  {
    var p := MatchesQuery(fold, query);
    FilterSortCommute(p, rows);
    ListingOrder(rows);
    SameMembers(Listing(rows), rows);
  }

  /** `searchTasks`. */
  function Search(rows: seq<TaskEntity>, engine: Engine, query: string, io: Io): (r: Result<seq<TaskListEntity>, Error>)
    ensures io.readFault.Some? ==> r == Failure(io.readFault.value)
    ensures io.readFault.None? ==> r == Success(ToDTOs(SearchRows(rows, engine.fold, query), engine.format))
  {
    match io.readFault
    case Some(e) => Failure(e)
    case None => Success(ToDTOs(SearchRows(rows, engine.fold, query), engine.format))
  }

  /**
   * `clearLocalTasks`. The batch delete runs against the store itself, so
   * once it has executed the rows are gone even if the following save fails.
   */
  function Clear(rows: seq<TaskEntity>, io: Io): (w: Written)
    ensures io.readFault.Some? ==> w == Written(rows, Fail(io.readFault.value))
    ensures io.readFault.None? ==> w.rows == []
    ensures w.outcome.Pass? <==> io.readFault.None? && io.writeFault.None?
  {
    match (io.readFault, io.writeFault)
    case (Some(e), _) => Written(rows, Fail(e))
    case (None, Some(e)) => Written([], Fail(e))
    case (None, None) => Written([], Pass)
  }

  /**
   * The row `createTask` inserts: the id is the whole seconds of one
   * `Date()` reading, `createdAt` another reading; never completed; no
   * `userId` is assigned, so it keeps the attribute's default 0.
   */
  function NewRow(title: string, details: Option<string>, idReading: Instant, stamp: Instant): (e: TaskEntity)
    ensures e.id == TruncateTowardZero(idReading)
    ensures e.title == Some(title) && e.details == details
    ensures e.createdAt == Some(stamp) && !e.isCompleted && e.userId == 0
  {
    TaskEntity(TruncateTowardZero(idReading), Some(title), details, Some(stamp), false, 0)
  }

  /** `createTask`; its `date` argument is not used. */
  function Create(rows: seq<TaskEntity>, title: string, details: Option<string>,
                  idReading: Instant, stamp: Instant, io: Io): (w: Written)
    requires UniqueIds(rows)
    ensures UniqueIds(w.rows)
    ensures w.outcome.Pass? <==> TruncateTowardZero(idReading) !in Ids(rows) && io.writeFault.None?
    ensures w.outcome.Pass? ==> w.rows == rows + [NewRow(title, details, idReading, stamp)]
    ensures w.outcome.Fail? ==> w.rows == rows
  {
    var e := NewRow(title, details, idReading, stamp);
    if e.id in Ids(rows) then Written(rows, Fail(ConstraintConflict))
    else match io.writeFault
      case Some(err) => Written(rows, Fail(err))
      case None => AppendFrame(rows, e); Written(rows + [e], Pass)
  }

  /** The row after `updateTask` assigned `new ?? old` to each attribute. */
  function Apply(e: TaskEntity, p: Patch): (r: TaskEntity)
    ensures r.id == e.id && r.userId == e.userId
    ensures r.title == (if p.title.Some? then p.title else e.title)
    ensures r.details == (if p.details.Some? then p.details else e.details)
    ensures r.createdAt == (if p.date.Some? then p.date else e.createdAt)
    ensures r.isCompleted == OrElse(p.completed, e.isCompleted)
  {
    e.(title := if p.title.Some? then p.title else e.title,
       details := if p.details.Some? then p.details else e.details,
       createdAt := if p.date.Some? then p.date else e.createdAt,
       isCompleted := OrElse(p.completed, e.isCompleted))
  }

  /**
   * `updateTask`. The fetched row is changed in place. All four attributes
   * are assigned, and an assignment marks the object changed even when the
   * value is the same, so `hasChanges` holds and the save is attempted for
   * every row found.
   */
  function Update(rows: seq<TaskEntity>, id: int, p: Patch, io: Io): (w: Written)
    requires UniqueIds(rows)
    ensures UniqueIds(w.rows)
    ensures io.readFault.Some? ==> w == Written(rows, Fail(io.readFault.value))
    ensures io.readFault.None? && id !in Ids(rows) ==> w == Written(rows, Fail(UpdateNotFound(id)))
    ensures w.outcome.Fail? ==> w.rows == rows
    ensures io.readFault.None? && id in Ids(rows) ==> w.outcome == (if io.writeFault.Some? then Fail(io.writeFault.value) else Pass)
  {
    match io.readFault
    case Some(e) => Written(rows, Fail(e))
    case None =>
      match IndexOf(rows, id)
      case None => Written(rows, Fail(UpdateNotFound(id)))
      case Some(k) =>
        var updated := Apply(rows[k], p);
        match io.writeFault
        case Some(e) => Written(rows, Fail(e))
        case None => ReplaceFrame(rows, k, updated); Written(rows[k := updated], Pass)
  }

  /** `deleteTask`. */
  function Delete(rows: seq<TaskEntity>, id: int, io: Io): (w: Written)
    requires UniqueIds(rows)
    ensures UniqueIds(w.rows)
    ensures io.readFault.Some? ==> w == Written(rows, Fail(io.readFault.value))
    ensures io.readFault.None? && id !in Ids(rows) ==> w == Written(rows, Fail(DeleteNotFound(id)))
    ensures w.outcome.Fail? ==> w.rows == rows
    ensures w.outcome.Pass? ==> Ids(w.rows) == Ids(rows) - {id}
  {
    match io.readFault
    case Some(e) => Written(rows, Fail(e))
    case None =>
      match IndexOf(rows, id)
      case None => Written(rows, Fail(DeleteNotFound(id)))
      case Some(k) =>
        match io.writeFault
        case Some(e) => Written(rows, Fail(e))
        case None => RemoveFrame(rows, k); Written(rows[..k] + rows[k + 1..], Pass)
  }

  // ---------------------------------------------------------------------
  // What the operations promise

  /**
   * A successful `updateTask` stores the patched row under `id` and leaves
   * every other id as it was.
   */
  lemma UpdatePresent(rows: seq<TaskEntity>, id: int, p: Patch, io: Io)
    requires UniqueIds(rows) && io.readFault.None? && io.writeFault.None?
    requires id in Ids(rows)
    ensures Update(rows, id, p, io).outcome == Pass
    ensures Lookup(Update(rows, id, p, io).rows, id) == Some(Apply(Lookup(rows, id).value, p))
    ensures forall other :: other != id ==> Lookup(Update(rows, id, p, io).rows, other) == Lookup(rows, other)
    ensures Ids(Update(rows, id, p, io).rows) == Ids(rows)
  {
    var k := IndexOf(rows, id).value;
    LookupAt(rows, k);
    ReplaceFrame(rows, k, Apply(rows[k], p));
  }

  /**
   * An update that passes no new value leaves the table as it was; it still
   * saves, so it succeeds exactly when the save does.
   */
  lemma UpdateNothing(rows: seq<TaskEntity>, id: int, io: Io)
    requires UniqueIds(rows) && io.readFault.None? && id in Ids(rows)
    ensures Update(rows, id, Patch(None, None, None, None), io).rows == rows
    ensures Update(rows, id, Patch(None, None, None, None), io).outcome.Pass? <==> io.writeFault.None?
  {
    var k := IndexOf(rows, id).value;
    assert Apply(rows[k], Patch(None, None, None, None)) == rows[k];
    assert rows[k := rows[k]] == rows;
  }

  /**
   * Setting the completion state to its negation and then back restores the
   * table exactly: the second update undoes the first.
   */
  lemma ToggleTwiceRestores(rows: seq<TaskEntity>, id: int, io: Io)
    requires UniqueIds(rows) && io.readFault.None? && io.writeFault.None?
    requires id in Ids(rows)
    ensures var was := Lookup(rows, id).value.isCompleted;
      var once := Update(rows, id, Patch(None, None, None, Some(!was)), io);
      once.outcome == Pass &&
      Update(once.rows, id, Patch(None, None, None, Some(was)), io) == Written(rows, Pass)
  {
    var k := IndexOf(rows, id).value;
    LookupAt(rows, k);
    var e := rows[k];
    var flipped := e.(isCompleted := !e.isCompleted);
    assert Apply(e, Patch(None, None, None, Some(!e.isCompleted))) == flipped;
    var once := rows[k := flipped];
    ReplaceFrame(rows, k, flipped);
    assert Update(rows, id, Patch(None, None, None, Some(!e.isCompleted)), io) == Written(once, Pass);
    LookupAt(once, k);
    assert IndexOf(once, id) == Some(k);
    assert Apply(flipped, Patch(None, None, None, Some(e.isCompleted))) == e;
    assert once[k := e] == rows;
  }

  /** A successful `deleteTask` removes exactly the row under `id`. */
  lemma DeletePresent(rows: seq<TaskEntity>, id: int, io: Io)
    requires UniqueIds(rows) && io.readFault.None? && io.writeFault.None?
    requires id in Ids(rows)
    ensures Delete(rows, id, io).outcome == Pass
    ensures |Delete(rows, id, io).rows| == |rows| - 1
    ensures Lookup(Delete(rows, id, io).rows, id) == None
    ensures forall other :: other != id ==> Lookup(Delete(rows, id, io).rows, other) == Lookup(rows, other)
  {
    var k := IndexOf(rows, id).value;
    RemoveFrame(rows, k);
  }

  /** A successful `createTask` stores the new row under its id and leaves every other id as it was. */
  lemma CreateStores(rows: seq<TaskEntity>, title: string, details: Option<string>,
                     idReading: Instant, stamp: Instant, io: Io)
    requires UniqueIds(rows) && io.writeFault.None?
    requires TruncateTowardZero(idReading) !in Ids(rows)
    ensures var w := Create(rows, title, details, idReading, stamp, io);
      && w.outcome == Pass
      && Lookup(w.rows, TruncateTowardZero(idReading)) == Some(NewRow(title, details, idReading, stamp))
      && forall other :: other != TruncateTowardZero(idReading) ==> Lookup(w.rows, other) == Lookup(rows, other)
  {
    AppendFrame(rows, NewRow(title, details, idReading, stamp));
  }
}
