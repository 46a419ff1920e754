/** utils/queue.js: the download queue. Items live in a map keyed by gallery id,
    `order` keeps the ids in queue order, and every change is announced to the
    listeners; the announcements are kept here as a ghost event log. The clock
    (`Date.now`) is a parameter of every operation that stamps a time. */
module Queue {
  import opened Wrappers
  import opened SeqSet

  /** `QueueItemStatus`. */
  datatype Status = Pending | Downloading | Completed | Failed | Cancelled

  /** What `add` is given: an id, a title and an optional page count. */
  datatype Entry = Entry(id: string, title: string, pageCount: Option<int>)

  /** A queue item; `None` stands for `null` (or a key that was never set). */
  datatype Item = Item(
    id: string,
    title: string,
    pageCount: int,
    status: Status,
    progress: int,
    currentPage: int,
    error: Option<string>,
    addedAt: int,
    startedAt: Option<int>,
    completedAt: Option<int>,
    retryCount: int,
    fileSize: Option<int>)

  /** The item `add` creates: pending, nothing done yet, stamped with `now`. */
  function NewItem(e: Entry, now: int): Item {
    Item(e.id, e.title, e.pageCount.GetOr(0), Pending, 0, 0, None, now, None, None, 0, None)
  }

  /** The `updates` object handed to `update`: each field that is `Some` is
      assigned; `error := Some(None)` assigns `null`. */
  datatype Patch = Patch(
    status: Option<Status>,
    progress: Option<int>,
    currentPage: Option<int>,
    pageCount: Option<int>,
    error: Option<Option<string>>,
    retryCount: Option<int>,
    fileSize: Option<int>)

  const NoChange := Patch(None, None, None, None, None, None, None)

  function Or<T>(later: Option<T>, earlier: Option<T>): Option<T> {
    if later.Some? then later else earlier
  }

  /** `{ ...p, ...q }`: the fields `q` has win. */
  function Override(p: Patch, q: Patch): Patch {
    Patch(Or(q.status, p.status), Or(q.progress, p.progress), Or(q.currentPage, p.currentPage),
          Or(q.pageCount, p.pageCount), Or(q.error, p.error), Or(q.retryCount, p.retryCount),
          Or(q.fileSize, p.fileSize))
  }

  /** A time stamp is truthy when it is set and not 0. */
  predicate Stamped(t: Option<int>) {
    t.Some? && t.value != 0
  }

  /** The item after `update(id, p)` at time `now`: `Object.assign`, then a
      `startedAt` stamp on a move to downloading when none is recorded yet, and a
      `completedAt` stamp on a move to completed or failed. */
  function ApplyPatch(it: Item, p: Patch, now: int): (r: Item)
    ensures r.id == it.id && r.title == it.title && r.addedAt == it.addedAt
  {
    var merged := it.(
      status := p.status.GetOr(it.status),
      progress := p.progress.GetOr(it.progress),
      currentPage := p.currentPage.GetOr(it.currentPage),
      pageCount := p.pageCount.GetOr(it.pageCount),
      error := p.error.GetOr(it.error),
      retryCount := p.retryCount.GetOr(it.retryCount),
      fileSize := Or(p.fileSize, it.fileSize));
    var started :=
      if p.status == Some(Downloading) && !Stamped(merged.startedAt) then merged.(startedAt := Some(now))
      else merged;
    if p.status == Some(Completed) || p.status == Some(Failed) then started.(completedAt := Some(now))
    else started
  }

  /** `Math.round((current / total) * 100)` on integers: round half up. */
  function RoundPercent(current: int, total: int): (r: int)
    requires total > 0
    ensures 2 * total * r - total <= 200 * current < 2 * total * r + total
    ensures 0 <= current <= total ==> 0 <= r <= 100
    ensures current == total ==> r == 100
  {
    var r := (200 * current + total) / (2 * total);
    FloorDivision(200 * current + total, 2 * total);
    PercentRange(current, total, r);
    r
  }

  lemma FloorDivision(n: int, d: int)
    requires d > 0
    ensures d * (n / d) <= n < d * (n / d) + d
  {
  }

  /** The integer within half a step of 100 * current / total. */
  lemma PercentRange(current: int, total: int, r: int)
    requires total > 0 && 2 * total * r - total <= 200 * current < 2 * total * r + total
    ensures 0 <= current <= total ==> 0 <= r <= 100
    ensures current == total ==> r == 100
  {
    if r < 0 {
      MultiplyBelow(total, r, -1);
    }
    if r > 100 {
      MultiplyBelow(total, 101, r);
    }
    if current == total && r < 100 {
      MultiplyBelow(total, r, 99);
    }
  }

  lemma MultiplyBelow(t: int, a: int, b: int)
    requires t > 0 && a <= b
    ensures 2 * t * a <= 2 * t * b
  {
  }

  function ProgressPatch(current: int, total: int): Patch
    requires total > 0
  {
    NoChange.(currentPage := Some(current), pageCount := Some(total), progress := Some(RoundPercent(current, total)))
  }

  const StartPatch := NoChange.(status := Some(Downloading))

  /** `{ status: COMPLETED, progress: 100, ...meta }`: `meta` may override both. */
  function CompletePatch(meta: Patch): Patch {
    Override(NoChange.(status := Some(Completed), progress := Some(100)), meta)
  }

  function FailPatch(error: string, retryCount: int): Patch {
    NoChange.(status := Some(Failed), error := Some(Some(error)), retryCount := Some(retryCount))
  }

  const CancelPatch := NoChange.(status := Some(Cancelled))

  const RetryPatch := NoChange.(status := Some(Pending), error := Some(None), progress := Some(0), currentPage := Some(0))

  /** The statuses `cancel()` without an id acts on. */
  const Cancellable := {Pending, Downloading}

  /** `startedAt` is stamped on the first move to downloading and kept on every
      later one. */
  lemma StartedAtStampedOnce(it: Item, first: int, later: int)
    requires first != 0
    ensures var a := ApplyPatch(it, StartPatch, first);
            a.status == Downloading
            && a.startedAt == (if Stamped(it.startedAt) then it.startedAt else Some(first))
            && ApplyPatch(a, StartPatch, later).startedAt == a.startedAt
  {
  }

  /** `completedAt` is stamped exactly when the patch moves the item to
      completed or failed. */
  lemma CompletedAtStamped(it: Item, p: Patch, now: int)
    ensures var r := ApplyPatch(it, p, now);
            (p.status == Some(Completed) || p.status == Some(Failed) ==> r.completedAt == Some(now))
            && (p.status != Some(Completed) && p.status != Some(Failed) ==> r.completedAt == it.completedAt)
  {
  }

  /** `complete` forces progress 100 and the completed status unless `meta`
      itself sets them, and keeps what `meta` carries. */
  lemma CompleteForcesProgress(it: Item, meta: Patch, now: int)
    ensures var r := ApplyPatch(it, CompletePatch(meta), now);
            (meta.progress.None? ==> r.progress == 100)
            && (meta.status.None? ==> r.status == Completed && r.completedAt == Some(now))
            && (meta.fileSize.Some? ==> r.fileSize == meta.fileSize)
  {
  }

  /** `fail` records the error, marks the item failed and raises its retry count
      by exactly one. */
  lemma FailBumpsRetryCount(it: Item, error: string, now: int)
    ensures var r := ApplyPatch(it, FailPatch(error, it.retryCount + 1), now);
            r.status == Failed && r.error == Some(error) && r.retryCount == it.retryCount + 1
            && r.completedAt == Some(now) && r.progress == it.progress
  {
  }

  /** A retried item is pending again with no error and no progress; its retry
      count is kept. */
  lemma RetryResets(it: Item, now: int)
    ensures var r := ApplyPatch(it, RetryPatch, now);
            r.status == Pending && r.error == None && r.progress == 0 && r.currentPage == 0
            && r.retryCount == it.retryCount && r.startedAt == it.startedAt && r.completedAt == it.completedAt
  {
  }

  /** Progress updates move the item between 0 and 100 and change nothing else
      of its state. */
  lemma ProgressWithinBounds(it: Item, current: int, total: int, now: int)
    requires 0 <= current <= total && total > 0
    ensures var r := ApplyPatch(it, ProgressPatch(current, total), now);
            0 <= r.progress <= 100 && r.currentPage == current && r.pageCount == total
            && r.status == it.status && r.startedAt == it.startedAt
  {
  }

  /** The queue events `_notify` announces. */
  datatype Event = Added(item: Item) | Removed(item: Item) | Updated(item: Item) | Cleared | Reordered(id: string, from: int, to: int)

  /** The item patched with `p` when its status is in `select`, else as it was. */
  function SweepOne(it: Item, select: set<Status>, p: Patch, now: int): Item {
    if it.status in select then ApplyPatch(it, p, now) else it
  }

  /** Every item whose status is in `select` patched with `p`, the others kept. */
  function Swept(items: map<string, Item>, select: set<Status>, p: Patch, now: int): (r: map<string, Item>)
    ensures r.Keys == items.Keys
  {
    map id | id in items :: SweepOne(items[id], select, p, now)
  }

  /** The update event a sweep announces for `id`, if any. */
  ghost function SweepEvent(id: string, items: map<string, Item>, select: set<Status>, p: Patch, now: int): seq<Event> {
    if id in items && items[id].status in select then [Updated(ApplyPatch(items[id], p, now))] else []
  }

  /** The update events of a sweep over `ids`, in that order. */
  ghost function SweepEvents(ids: seq<string>, items: map<string, Item>, select: set<Status>, p: Patch, now: int): seq<Event> {
    if ids == [] then []
    else SweepEvents(ids[..|ids| - 1], items, select, p, now) + SweepEvent(ids[|ids| - 1], items, select, p, now)
  }

  /** The items of `ids` swept, the others kept. */
  function SweptOver(items: map<string, Item>, ids: seq<string>, select: set<Status>, p: Patch, now: int): map<string, Item> {
    map id | id in items :: if id in ids then SweepOne(items[id], select, p, now) else items[id]
  }

  /** One more id of a duplicate-free list swept. */
  lemma SweptOverStep(items: map<string, Item>, ids: seq<string>, k: nat, select: set<Status>, p: Patch, now: int)
    requires Distinct(ids) && k < |ids| && ids[k] in items
    ensures var before := SweptOver(items, ids[..k], select, p, now);
            ids[k] in before && before[ids[k]] == items[ids[k]]
            && SweptOver(items, ids[..k + 1], select, p, now) == before[ids[k] := SweepOne(items[ids[k]], select, p, now)]
            && SweepEvent(ids[k], before, select, p, now) == SweepEvent(ids[k], items, select, p, now)
    ensures SweepEvents(ids[..k + 1], items, select, p, now) == SweepEvents(ids[..k], items, select, p, now) + SweepEvent(ids[k], items, select, p, now)
  {
    assert ids[..k + 1] == ids[..k] + [ids[k]] && (ids[..k + 1])[..k] == ids[..k];
    assert ids[k] !in ids[..k];
  }

  /** A sweep over a list holding every key sweeps the whole map. */
  lemma SweptOverAll(items: map<string, Item>, ids: seq<string>, select: set<Status>, p: Patch, now: int)
    requires forall id :: id in items ==> id in ids
    ensures SweptOver(items, ids[..|ids|], select, p, now) == Swept(items, select, p, now)
  {
    assert ids[..|ids|] == ids;
  }

  /** `cancel()` with no id: pending and downloading items are cancelled, the
      others are untouched. */
  lemma CancelAllSweep(items: map<string, Item>, now: int, id: string)
    requires id in items
    ensures var r := Swept(items, Cancellable, CancelPatch, now);
            (items[id].status == Pending || items[id].status == Downloading ==> r[id].status == Cancelled)
            && (items[id].status != Pending && items[id].status != Downloading ==> r[id] == items[id])
  {
  }

  /** `retry()` with no id: every failed item is reset to pending with its
      retry count kept, every other item is untouched. */
  lemma RetryAllResetsEveryFailed(items: map<string, Item>, now: int, id: string)
    requires id in items
    ensures var r := Swept(items, {Failed}, RetryPatch, now);
            (items[id].status == Failed ==> r[id].status == Pending && r[id].retryCount == items[id].retryCount)
            && (items[id].status != Failed ==> r[id] == items[id])
  {
  }

  /** The ids of `ids` whose items are completed, in order. */
  function CompletedIds(ids: seq<string>, items: map<string, Item>): seq<string> {
    if ids == [] then []
    else
      var id := ids[|ids| - 1];
      CompletedIds(ids[..|ids| - 1], items) + (if id in items && items[id].status == Completed then [id] else [])
  }

  /** The ids collected are exactly the completed ones, each once when the
      order has no duplicates. */
  lemma {:induction false} CompletedIdsExactly(ids: seq<string>, items: map<string, Item>)
    ensures forall id :: id in CompletedIds(ids, items) <==> id in ids && id in items && items[id].status == Completed
    ensures Distinct(ids) ==> Distinct(CompletedIds(ids, items))
  {
    if ids != [] {
      var init := ids[..|ids| - 1];
      var last := ids[|ids| - 1];
      CompletedIdsExactly(init, items);
      assert ids == init + [last];
      if Distinct(ids) {
        assert Distinct(init) by {
          forall i, j | 0 <= i < j < |init|
            ensures init[i] != init[j]
          {
            assert init[i] == ids[i] && init[j] == ids[j];
          }
        }
        assert last !in init;
      }
    }
  }

  ghost function RemovedEvents(ids: seq<string>, items: map<string, Item>): seq<Event> {
    if ids == [] then []
    else
      var id := ids[|ids| - 1];
      RemovedEvents(ids[..|ids| - 1], items) + (if id in items then [Removed(items[id])] else [])
  }

  /** `order.map(id => items.get(id)).filter(Boolean)`. */
  function Lookup(ids: seq<string>, items: map<string, Item>): (r: seq<Item>)
    ensures |r| <= |ids|
    ensures forall i :: 0 <= i < |ids| && ids[i] in items ==> items[ids[i]] in r
    ensures forall x :: x in r ==> exists id :: id in ids && id in items && items[id] == x
    ensures (forall i :: 0 <= i < |ids| ==> ids[i] in items) ==>
              |r| == |ids| && forall i :: 0 <= i < |ids| ==> r[i] == items[ids[i]]
  {
    if ids == [] then []
    else (if ids[0] in items then [items[ids[0]]] else []) + Lookup(ids[1..], items)
  }

  /** `items.filter(item => item.status === status)`. */
  function WithStatus(all: seq<Item>, status: Status): (r: seq<Item>)
    ensures |r| <= |all|
  {
    if all == [] then []
    else (if all[0].status == status then [all[0]] else []) + WithStatus(all[1..], status)
  }

  /** The filter keeps exactly the items with that status. */
  lemma {:induction false} WithStatusExactly(all: seq<Item>, status: Status)
    ensures forall x :: x in WithStatus(all, status) <==> x in all && x.status == status
  {
    if all != [] {
      WithStatusExactly(all[1..], status);
      assert forall x :: x in all <==> x == all[0] || x in all[1..];
    }
  }

  datatype Stats = Stats(total: nat, pending: nat, downloading: nat, completed: nat, failed: nat, cancelled: nat)

  /** The per-status counts partition the items. */
  lemma {:induction false} StatusCountsSum(all: seq<Item>)
    ensures |WithStatus(all, Pending)| + |WithStatus(all, Downloading)| + |WithStatus(all, Completed)|
            + |WithStatus(all, Failed)| + |WithStatus(all, Cancelled)| == |all|
  {
    if all != [] {
      StatusCountsSum(all[1..]);
    }
  }

  /** The filter keeps the order: it distributes over concatenation. */
  lemma {:induction false} WithStatusAppend(a: seq<Item>, b: seq<Item>, status: Status)
    ensures WithStatus(a + b, status) == WithStatus(a, status) + WithStatus(b, status)
  {
    if a == [] {
      assert a + b == b;
    } else {
      var head := if a[0].status == status then [a[0]] else [];
      assert (a + b)[0] == a[0] && (a + b)[1..] == a[1..] + b;
      calc {
        WithStatus(a + b, status);
        head + WithStatus(a[1..] + b, status);
        { WithStatusAppend(a[1..], b, status); }
        head + (WithStatus(a[1..], status) + WithStatus(b, status));
        (head + WithStatus(a[1..], status)) + WithStatus(b, status);
      }
    }
  }

  /** The ids of the queued items with a given status. */
  ghost function StatusIds(items: map<string, Item>, status: Status): set<string> {
    set id | id in items && items[id].status == status
  }

  /** Looking up distinct queued ids and filtering by status lists one item
      per id that has that status. */
  lemma {:induction false} LookupStatusCount(ids: seq<string>, items: map<string, Item>, status: Status)
    requires Distinct(ids) && forall id :: id in ids ==> id in items
    ensures |WithStatus(Lookup(ids, items), status)| == |set id | id in ids && items[id].status == status|
  {
    if ids != [] {
      var rest := ids[1..];
      assert Distinct(rest);
      LookupStatusCount(rest, items, status);
      var l := Lookup(ids, items);
      assert l[0] == items[ids[0]] && l[1..] == Lookup(rest, items);
      assert ids == [ids[0]] + rest && ids[0] !in rest;
      StatusIdsCons(ids[0], rest, items, status);
    }
  }

  lemma SameIds(order: seq<string>, items: map<string, Item>, status: Status)
    requires forall id :: id in items <==> id in order
    ensures (set id | id in order && items[id].status == status) == StatusIds(items, status)
  {
  }

  lemma StatusIdsCons(x: string, rest: seq<string>, items: map<string, Item>, status: Status)
    requires x !in rest && x in items && forall id :: id in rest ==> id in items
    ensures |set id | id in [x] + rest && items[id].status == status|
            == |set id | id in rest && items[id].status == status| + (if items[x].status == status then 1 else 0)
  {
    var all := set id | id in [x] + rest && items[id].status == status;
    var front := set id | id in rest && items[id].status == status;
    if items[x].status == status {
      assert all == front + {x};
    } else {
      assert all == front;
    }
  }

  /** `splice(start, …)` reads a start index this way: a negative one counts
      back from the end (not below 0), a large one stops at the end. */
  function SpliceStart(start: int, len: nat): (k: nat)
    ensures k <= len
  {
    if start < 0 then (if len + start < 0 then 0 else len + start)
    else if start > len then len
    else start
  }

  /** Moving one element keeps every element once and leaves the others in their
      relative order. */
  lemma ReorderKeepsOthers(s: seq<string>, i: nat, k: nat)
    requires Distinct(s) && i < |s| && k < |s|
    ensures var t := InsertAt(RemoveAt(s, i), k, s[i]);
            Distinct(t) && multiset(t) == multiset(s) && t[k] == s[i]
            && Without(t, s[i]) == Without(s, s[i])
  {
    var t := InsertAt(RemoveAt(s, i), k, s[i]);
    MoveIsPermutation(s, i, k);
    PermutationKeepsDistinct(s, t);
    WithoutRemoveAt(s, i);
    WithoutInsertAt(RemoveAt(s, i), k, s[i]);
  }

  /** In a duplicate-free sequence, filtering out the element at `i` removes
      position `i`. */
  lemma WithoutRemoveAt(s: seq<string>, i: nat)
    requires Distinct(s) && i < |s|
    ensures Without(s, s[i]) == RemoveAt(s, i)
    ensures s[i] !in RemoveAt(s, i)
  {
    var a, b := s[..i], s[i + 1..];
    assert s == a + [s[i]] + b;
    OccursOnlyAt(s, i);
    WithoutBetween(a, s[i], b);
  }

  /** In a duplicate-free sequence the element at `i` occurs neither before
      nor after position `i`. */
  lemma OccursOnlyAt(s: seq<string>, i: nat)
    requires Distinct(s) && i < |s|
    ensures s[i] !in s[..i] && s[i] !in s[i + 1..]
  {
    var before, after := s[..i], s[i + 1..];
    forall j | 0 <= j < |before|
      ensures before[j] != s[i]
    {
      assert before[j] == s[j];
    }
    forall j | 0 <= j < |after|
      ensures after[j] != s[i]
    {
      assert after[j] == s[i + 1 + j];
    }
  }

  /** Filtering out an element that occurs once, between `a` and `b`, leaves
      `a + b`. */
  lemma WithoutBetween(a: seq<string>, x: string, b: seq<string>)
    requires x !in a && x !in b
    ensures Without(a + [x] + b, x) == a + b
  {
    RemoveAllAppend(a + [x], b, {x});
    RemoveAllAppend(a, [x], {x});
    assert RemoveAll([x], {x}) == [] by {
      assert [x][1..] == [];
    }
    assert RemoveAll(a, {x}) == a && RemoveAll(b, {x}) == b;
    calc {
      Without(a + [x] + b, x);
      RemoveAll(a + [x], {x}) + RemoveAll(b, {x});
      RemoveAll(a, {x}) + RemoveAll([x], {x}) + RemoveAll(b, {x});
      a + [] + b;
      { assert a + [] == a; }
      a + b;
    }
  }

  /** Filtering out an element inserted into a sequence that lacked it gives
      the sequence back. */
  lemma WithoutInsertAt(t: seq<string>, k: nat, x: string)
    requires k <= |t| && x !in t
    ensures Without(InsertAt(t, k, x), x) == t
  {
    var a, b := t[..k], t[k..];
    assert InsertAt(t, k, x) == a + [x] + b;
    assert t == a + b;
    assert x !in a && x !in b;
    WithoutBetween(a, x, b);
  }

  class DownloadQueue {
    var items: map<string, Item>
    var order: seq<string>
    ghost var events: seq<Event>

    /** `order` lists each key of `items` once and nothing else, and every item
        sits under its own id. */
    ghost predicate Valid()
      reads this
    {
      Distinct(order)
      && (forall id :: id in items <==> id in order)
      && (forall id :: id in items ==> items[id].id == id)
    }

    constructor()
      ensures Valid() && items == map[] && order == [] && events == []
    {
      items := map[];
      order := [];
      events := [];
    }

    /** `add(item)`: a known id changes nothing; a new one is appended as a
        fresh pending item. */
    method Add(e: Entry, now: int) returns (added: bool)
      requires Valid()
      modifies this
      ensures Valid()
      ensures added <==> e.id !in old(items)
      ensures !added ==> items == old(items) && order == old(order) && events == old(events)
      ensures added ==> items == old(items)[e.id := NewItem(e, now)] && order == old(order) + [e.id]
                        && events == old(events) + [Added(NewItem(e, now))]
    {
      if e.id in items {
        return false;
      }
      var item := NewItem(e, now);
      items := items[e.id := item];
      order := order + [e.id];
      events := events + [Added(item)];
      return true;
    }

    /** `addBatch(items)`: `add` for each entry in turn, the `k`th at time
        `times[k]` (see `BatchFirstEntryWins` for what the map then holds). */
    method AddBatch(entries: seq<Entry>, times: seq<int>)
      requires Valid() && |times| == |entries|
      modifies this
      ensures Valid()
      ensures order == AddAll(old(order), Ids(entries))
      ensures items == BatchMap(old(items), entries, times)
      ensures events == old(events) + BatchEvents(old(items), entries, times)
    {
      var k := 0;
      while k < |entries|
        invariant 0 <= k <= |entries| && Valid()
        invariant order == AddAll(old(order), Ids(entries[..k]))
        invariant items == BatchMap(old(items), entries[..k], times[..k])
        invariant events == old(events) + BatchEvents(old(items), entries[..k], times[..k])
      {
        AddNext(entries, times, k, old(items), old(order), old(events));
        k := k + 1;
      }
      assert entries[..k] == entries && times[..k] == times;
    }

    /** One turn of `addBatch`'s loop. */
    method AddNext(entries: seq<Entry>, times: seq<int>, k: nat, ghost items0: map<string, Item>, ghost order0: seq<string>, ghost events0: seq<Event>)
      requires Valid() && |times| == |entries| && k < |entries|
      requires order == AddAll(order0, Ids(entries[..k]))
      requires items == BatchMap(items0, entries[..k], times[..k])
      requires events == events0 + BatchEvents(items0, entries[..k], times[..k])
      modifies this
      ensures Valid()
      ensures order == AddAll(order0, Ids(entries[..k + 1]))
      ensures items == BatchMap(items0, entries[..k + 1], times[..k + 1])
      ensures events == events0 + BatchEvents(items0, entries[..k + 1], times[..k + 1])
    {
      BatchStep(items0, order0, entries, times, k);
      ghost var step := if entries[k].id in items then [] else [Added(NewItem(entries[k], times[k]))];
      ghost var before := events;
      var _ := Add(entries[k], times[k]);
      AppendStep(events0, BatchEvents(items0, entries[..k], times[..k]), step, before, events);
    }

    /** `remove(id)`. */
    method Remove(id: string)
      requires Valid()
      modifies this
      ensures Valid()
      ensures id !in old(items) ==> items == old(items) && order == old(order) && events == old(events)
      ensures id in old(items) ==> items == old(items) - {id} && order == Without(old(order), id)
                                   && events == old(events) + [Removed(old(items)[id])]
    {
      if id in items {
        var item := items[id];
        items := items - {id};
        order := Without(order, id);
        events := events + [Removed(item)];
      }
    }

    /** `update(id, updates)`: an unknown id changes nothing. */
    method Update(id: string, p: Patch, now: int)
      requires Valid()
      modifies this
      ensures Valid() && order == old(order)
      ensures id !in old(items) ==> items == old(items) && events == old(events)
      ensures id in old(items) ==> items == old(items)[id := ApplyPatch(old(items)[id], p, now)]
                                   && events == old(events) + [Updated(ApplyPatch(old(items)[id], p, now))]
    {
      if id in items {
        var item := ApplyPatch(items[id], p, now);
        items := items[id := item];
        events := events + [Updated(item)];
      }
    }

    /** `updateProgress(id, currentPage, totalPages)`. */
    method UpdateProgress(id: string, current: int, total: int, now: int)
      requires Valid() && total > 0
      modifies this
      ensures Valid() && order == old(order)
      ensures id !in old(items) ==> items == old(items) && events == old(events)
      ensures id in old(items) ==> items == old(items)[id := ApplyPatch(old(items)[id], ProgressPatch(current, total), now)]
                                   && events == old(events) + [Updated(items[id])]
    {
      Update(id, ProgressPatch(current, total), now);
    }

    /** `startDownload(id)`. */
    method StartDownload(id: string, now: int)
      requires Valid()
      modifies this
      ensures Valid() && order == old(order)
      ensures id !in old(items) ==> items == old(items) && events == old(events)
      ensures id in old(items) ==> items == old(items)[id := ApplyPatch(old(items)[id], StartPatch, now)]
                                   && events == old(events) + [Updated(items[id])]
    {
      Update(id, StartPatch, now);
    }

    /** `complete(id, meta)`. */
    method Complete(id: string, meta: Patch, now: int)
      requires Valid()
      modifies this
      ensures Valid() && order == old(order)
      ensures id !in old(items) ==> items == old(items) && events == old(events)
      ensures id in old(items) ==> items == old(items)[id := ApplyPatch(old(items)[id], CompletePatch(meta), now)]
                                   && events == old(events) + [Updated(items[id])]
    {
      Update(id, CompletePatch(meta), now);
    }

    /** `fail(id, error)`: the retry count is read before the update. */
    method Fail(id: string, error: string, now: int)
      requires Valid()
      modifies this
      ensures Valid() && order == old(order)
      ensures id !in old(items) ==> items == old(items) && events == old(events)
      ensures id in old(items) ==>
                items == old(items)[id := ApplyPatch(old(items)[id], FailPatch(error, old(items)[id].retryCount + 1), now)]
                && events == old(events) + [Updated(items[id])]
    {
      if id in items {
        Update(id, FailPatch(error, items[id].retryCount + 1), now);
      }
    }

    /** The `forEach` of `cancel()` and `retry()`: every item whose status is in
        `select` gets `update(itemId, p)`. */
    method UpdateWhere(select: set<Status>, p: Patch, now: int)
      requires Valid()
      modifies this
      ensures Valid() && order == old(order)
      ensures items == Swept(old(items), select, p, now)
      ensures events == old(events) + SweepEvents(old(order), old(items), select, p, now)
    {
      var k := 0;
      while k < |order|
        invariant 0 <= k <= |order| && order == old(order) && Valid()
        invariant items == SweptOver(old(items), order[..k], select, p, now)
        invariant events == old(events) + SweepEvents(order[..k], old(items), select, p, now)
      {
        SweepNext(k, select, p, now, old(items), old(events));
        k := k + 1;
      }
      assert order[..k] == order;
      SweptOverAll(old(items), order, select, p, now);
    }

    /** One turn of that `forEach`, over the item at position `k`. */
    method SweepNext(k: nat, select: set<Status>, p: Patch, now: int, ghost items0: map<string, Item>, ghost events0: seq<Event>)
      requires Valid() && k < |order| && order[k] in items0
      requires items == SweptOver(items0, order[..k], select, p, now)
      requires events == events0 + SweepEvents(order[..k], items0, select, p, now)
      modifies this
      ensures Valid() && order == old(order)
      ensures items == SweptOver(items0, order[..k + 1], select, p, now)
      ensures events == events0 + SweepEvents(order[..k + 1], items0, select, p, now)
    {
      SweptOverStep(items0, order, k, select, p, now);
      ghost var before := events;
      SweepStep(order[k], select, p, now);
      AppendStep(events0, SweepEvents(order[..k], items0, select, p, now), SweepEvent(order[k], items0, select, p, now), before, events);
    }

    /** One turn of that `forEach`. */
    method SweepStep(id: string, select: set<Status>, p: Patch, now: int)
      requires Valid() && id in items
      modifies this
      ensures Valid() && order == old(order)
      ensures items == old(items)[id := SweepOne(old(items)[id], select, p, now)]
      ensures events == old(events) + SweepEvent(id, old(items), select, p, now)
    {
      if items[id].status in select {
        Update(id, p, now);
      }
    }

    /** `cancel(id)`: a truthy (non-empty) id is cancelled whatever its status;
        otherwise every pending or downloading item is. */
    method Cancel(id: Option<string>, now: int)
      requires Valid()
      modifies this
      ensures Valid() && order == old(order)
      ensures id.Some? && id.value != "" ==>
                (id.value !in old(items) ==> items == old(items) && events == old(events))
                && (id.value in old(items) ==> items == old(items)[id.value := ApplyPatch(old(items)[id.value], CancelPatch, now)]
                                               && events == old(events) + [Updated(items[id.value])])
      ensures !(id.Some? && id.value != "") ==>
                items == Swept(old(items), Cancellable, CancelPatch, now)
                && events == old(events) + SweepEvents(old(order), old(items), Cancellable, CancelPatch, now)
    {
      if id.Some? && id.value != "" {
        Update(id.value, CancelPatch, now);
      } else {
        UpdateWhere(Cancellable, CancelPatch, now);
      }
    }

    /** `retry(id)`: a truthy id is reset when its item failed; otherwise every
        failed item is. The loop of the second case resets each item directly
        (see `RetryAsWritten` for the code as written). */
    method Retry(id: Option<string>, now: int)
      requires Valid()
      modifies this
      ensures Valid() && order == old(order)
      ensures id.Some? && id.value != "" ==>
                (id.value in old(items) && old(items)[id.value].status == Failed ==>
                   items == old(items)[id.value := ApplyPatch(old(items)[id.value], RetryPatch, now)]
                   && events == old(events) + [Updated(items[id.value])])
                && (!(id.value in old(items) && old(items)[id.value].status == Failed) ==>
                   items == old(items) && events == old(events))
      ensures !(id.Some? && id.value != "") ==>
                items == Swept(old(items), {Failed}, RetryPatch, now)
                && events == old(events) + SweepEvents(old(order), old(items), {Failed}, RetryPatch, now)
    {
      if id.Some? && id.value != "" {
        if id.value in items && items[id.value].status == Failed {
          Update(id.value, RetryPatch, now);
        }
      } else {
        UpdateWhere({Failed}, RetryPatch, now);
      }
    }

    /** `getNext()`: the first item in queue order that is pending. */
    method GetNext() returns (next: Option<Item>)
      ensures next.None? <==> forall i :: 0 <= i < |order| ==> !PendingAt(i)
      ensures next.Some? ==> exists i :: 0 <= i < |order| && PendingAt(i) && items[order[i]] == next.value
                                        && forall j :: 0 <= j < i ==> !PendingAt(j)
    {
      var k := 0;
      while k < |order|
        invariant 0 <= k <= |order|
        invariant forall j :: 0 <= j < k ==> !PendingAt(j)
      {
        var id := order[k];
        if id in items && items[id].status == Pending {
          assert PendingAt(k);
          return Some(items[id]);
        }
        k := k + 1;
      }
      return None;
    }

    predicate PendingAt(i: int)
      requires 0 <= i < |order|
      reads this
    {
      order[i] in items && items[order[i]].status == Pending
    }

    /** `getAll()`: the items in queue order. */
    function GetAll(): (r: seq<Item>)
      requires Valid()
      reads this
      ensures |r| == |order| && forall i :: 0 <= i < |order| ==> r[i] == items[order[i]]
    {
      Lookup(order, items)
    }

    /** `getByStatus(status)`: one entry for each queued item with that
        status, in queue order (see `WithStatusAppend`). */
    function GetByStatus(status: Status): (r: seq<Item>)
      requires Valid()
      reads this
      ensures forall x :: x in r <==> x.status == status && exists id :: id in items && items[id] == x
      ensures |r| == |StatusIds(items, status)|
    {
      StatusCount(status);
      WithStatusExactly(GetAll(), status);
      WithStatus(GetAll(), status)
    }

    /** `getStats()`: the number of items, and how many have each status. */
    function GetStats(): (s: Stats)
      requires Valid()
      reads this
      ensures s.total == |items|
      ensures s.pending == |StatusIds(items, Pending)| && s.downloading == |StatusIds(items, Downloading)|
      ensures s.completed == |StatusIds(items, Completed)| && s.failed == |StatusIds(items, Failed)|
      ensures s.cancelled == |StatusIds(items, Cancelled)|
      ensures s.pending + s.downloading + s.completed + s.failed + s.cancelled == s.total
    {
      KeysMatchOrder(items, order);
      var all := GetAll();
      StatusCountsSum(all);
      StatusCount(Pending);
      StatusCount(Downloading);
      StatusCount(Completed);
      StatusCount(Failed);
      StatusCount(Cancelled);
      Stats(|all|, |WithStatus(all, Pending)|, |WithStatus(all, Downloading)|, |WithStatus(all, Completed)|,
            |WithStatus(all, Failed)|, |WithStatus(all, Cancelled)|)
    }

    lemma StatusCount(status: Status)
      requires Valid()
      ensures |WithStatus(GetAll(), status)| == |StatusIds(items, status)|
    {
      LookupStatusCount(order, items, status);
      SameIds(order, items, status);
    }

    /** `clearCompleted()`: the completed ids are collected first, then removed
        one by one. */
    method ClearCompleted()
      requires Valid()
      modifies this
      ensures Valid()
      ensures items == map id | id in old(items) && old(items)[id].status != Completed :: old(items)[id]
      ensures order == RemoveAll(old(order), set id | id in old(items) && old(items)[id].status == Completed)
      ensures events == old(events) + RemovedEvents(CompletedIds(old(order), old(items)), old(items))
    {
      var toRemove := CollectCompleted();
      CompletedIdsExactly(order, items);
      DroppedCompleted(items, order);
      RemoveEach(toRemove);
    }

    /** The first loop of `clearCompleted()`: the ids of the completed items,
        in queue order. */
    method CollectCompleted() returns (toRemove: seq<string>)
      requires Valid()
      ensures toRemove == CompletedIds(order, items)
    {
      toRemove := [];
      var k := 0;
      while k < |order|
        invariant 0 <= k <= |order|
        invariant toRemove == CompletedIds(order[..k], items)
      {
        var id := order[k];
        assert order[..k + 1] == order[..k] + [id] && (order[..k + 1])[..k] == order[..k];
        if items[id].status == Completed {
          toRemove := toRemove + [id];
        }
        k := k + 1;
      }
      assert order[..k] == order;
    }

    /** `toRemove.forEach(id => this.remove(id))` for ids that are all present. */
    method RemoveEach(ids: seq<string>)
      requires Valid() && Distinct(ids) && forall id :: id in ids ==> id in items
      modifies this
      ensures Valid()
      ensures items == Dropped(old(items), ids)
      ensures order == RemoveAll(old(order), Elems(ids))
      ensures events == old(events) + RemovedEvents(ids, old(items))
    {
      var j := 0;
      while j < |ids|
        invariant 0 <= j <= |ids| && Valid()
        invariant items == Dropped(old(items), ids[..j])
        invariant order == RemoveAll(old(order), Elems(ids[..j]))
        invariant events == old(events) + RemovedEvents(ids[..j], old(items))
      {
        RemoveNext(ids, j, old(items), old(order), old(events));
        j := j + 1;
      }
      assert ids[..j] == ids;
    }

    /** One turn of that `forEach`. */
    method RemoveNext(ids: seq<string>, j: nat, ghost items0: map<string, Item>, ghost order0: seq<string>, ghost events0: seq<Event>)
      requires Valid() && Distinct(ids) && j < |ids| && ids[j] in items0
      requires items == Dropped(items0, ids[..j]) && order == RemoveAll(order0, Elems(ids[..j]))
      requires events == events0 + RemovedEvents(ids[..j], items0)
      modifies this
      ensures Valid()
      ensures items == Dropped(items0, ids[..j + 1]) && order == RemoveAll(order0, Elems(ids[..j + 1]))
      ensures events == events0 + RemovedEvents(ids[..j + 1], items0)
    {
      DropStep(items0, order0, ids, j);
      ghost var before := events;
      Remove(ids[j]);
      AppendStep(events0, RemovedEvents(ids[..j], items0), [Removed(items0[ids[j]])], before, events);
    }

    /** `clear()`. */
    method Clear()
      requires Valid()
      modifies this
      ensures Valid() && items == map[] && order == [] && events == old(events) + [Cleared]
    {
      items := map[];
      order := [];
      events := events + [Cleared];
    }

    /** `reorder(id, newIndex)`: an id not in the queue changes nothing; otherwise
        it is taken out and spliced back in at `newIndex`. */
    method Reorder(id: string, newIndex: int)
      requires Valid()
      modifies this
      ensures Valid() && items == old(items)
      ensures id !in old(order) ==> order == old(order) && events == old(events)
      ensures id in old(order) ==>
                var from := IndexOf(old(order), id);
                var rest := RemoveAt(old(order), from);
                order == InsertAt(rest, SpliceStart(newIndex, |rest|), id)
                && events == old(events) + [Reordered(id, from, newIndex)]
    {
      var from := IndexOf(order, id);
      if from == -1 {
        return;
      }
      var rest := RemoveAt(order, from);
      ReorderKeepsOthers(order, from, SpliceStart(newIndex, |rest|));
      order := InsertAt(rest, SpliceStart(newIndex, |rest|), id);
      events := events + [Reordered(id, from, newIndex)];
    }
  }

  /** `retry(id)` as written, on values: with no truthy id, the `forEach` calls
      `this.retry(itemId)` for each failed item, and an empty id is falsy, so
      that call starts the whole sweep again. `depth` bounds the call stack;
      `None` is the stack overflow. */
  function RetryAsWritten(id: Option<string>, order: seq<string>, items: map<string, Item>, now: int, depth: nat): (r: Option<map<string, Item>>)
    ensures id.Some? && id.value != "" ==> r.Some?
    ensures r.Some? ==> r.value.Keys == items.Keys
    ensures r.Some? ==> forall k :: k in items && items[k].status != Failed ==> r.value[k] == items[k]
    decreases depth, 0, 0
  {
    if id.Some? && id.value != "" then
      Some(if id.value in items && items[id.value].status == Failed
           then items[id.value := ApplyPatch(items[id.value], RetryPatch, now)]
           else items)
    else if depth == 0 then None
    else RetryEachAsWritten(order, order, items, now, depth - 1)
  }

  /** The `forEach` of that sweep over the ids still to visit. */
  function RetryEachAsWritten(order: seq<string>, ids: seq<string>, items: map<string, Item>, now: int, depth: nat): (r: Option<map<string, Item>>)
    ensures r.Some? ==> r.value.Keys == items.Keys
    ensures r.Some? ==> forall k :: k in items && items[k].status != Failed ==> r.value[k] == items[k]
    decreases depth, 1, |ids|
  {
    if ids == [] then Some(items)
    else if ids[0] in items && items[ids[0]].status == Failed then
      match RetryAsWritten(Some(ids[0]), order, items, now, depth)
      case None => None
      case Some(m) => RetryEachAsWritten(order, ids[1..], m, now, depth)
    else RetryEachAsWritten(order, ids[1..], items, now, depth)
  }

  /** A failed item with the empty id makes `retry()` recurse without end: no
      call stack, however deep, lets it return. */
  lemma {:induction false} RetryOfEmptyIdNeverReturns(order: seq<string>, items: map<string, Item>, now: int, depth: nat)
    requires "" in items && items[""].status == Failed && "" in order
    ensures RetryAsWritten(None, order, items, now, depth) == None
  {
    if depth > 0 {
      RetryEachReachesEmptyId(order, order, items, now, depth - 1);
    }
  }

  lemma {:induction false} RetryEachReachesEmptyId(order: seq<string>, ids: seq<string>, items: map<string, Item>, now: int, depth: nat)
    requires "" in items && items[""].status == Failed && "" in order && "" in ids
    ensures RetryEachAsWritten(order, ids, items, now, depth) == None
    decreases depth, |ids|
  {
    if ids[0] == "" {
      if depth > 0 {
        RetryEachReachesEmptyId(order, order, items, now, depth - 1);
      }
    } else {
      assert "" in ids[1..];
      if ids[0] in items && items[ids[0]].status == Failed {
        var m := items[ids[0] := ApplyPatch(items[ids[0]], RetryPatch, now)];
        assert RetryAsWritten(Some(ids[0]), order, items, now, depth) == Some(m);
        RetryEachReachesEmptyId(order, ids[1..], m, now, depth);
      } else {
        RetryEachReachesEmptyId(order, ids[1..], items, now, depth);
      }
    }
  }

  /** Without a failed item under the empty id, the code as written does what
      `DownloadQueue.Retry` does: every failed item reset, the rest kept. */
  lemma RetryAsWrittenAgrees(order: seq<string>, items: map<string, Item>, now: int, depth: nat)
    requires depth >= 1 && Distinct(order) && (forall id :: id in items ==> id in order)
    requires !("" in items && items[""].status == Failed)
    ensures RetryAsWritten(None, order, items, now, depth) == Some(Swept(items, {Failed}, RetryPatch, now))
  {
    RetryEachSweeps(order, order, items, now, depth - 1);
    SweptOverAll(items, order, {Failed}, RetryPatch, now);
    assert order[..|order|] == order;
  }

  lemma {:induction false} RetryEachSweeps(order: seq<string>, ids: seq<string>, items: map<string, Item>, now: int, depth: nat)
    requires Distinct(ids) && !("" in items && items[""].status == Failed)
    ensures RetryEachAsWritten(order, ids, items, now, depth) == Some(SweptOver(items, ids, {Failed}, RetryPatch, now))
    decreases |ids|
  {
    if ids == [] {
      assert SweptOver(items, ids, {Failed}, RetryPatch, now) == items;
    } else {
      var id := ids[0];
      assert Distinct(ids[1..]) && id !in ids[1..];
      var m := if id in items && items[id].status == Failed
               then items[id := ApplyPatch(items[id], RetryPatch, now)] else items;
      assert id in items && items[id].status == Failed ==> RetryAsWritten(Some(id), order, items, now, depth) == Some(m);
      RetryEachSweeps(order, ids[1..], m, now, depth);
      assert SweptOver(m, ids[1..], {Failed}, RetryPatch, now) == SweptOver(items, ids, {Failed}, RetryPatch, now);
    }
  }

  /** The items whose ids are not in `ids`. */
  function Dropped(items: map<string, Item>, ids: seq<string>): map<string, Item> {
    map id | id in items && id !in ids :: items[id]
  }

  /** One more id of a duplicate-free list removed. */
  lemma DropStep(items: map<string, Item>, order: seq<string>, ids: seq<string>, j: nat)
    requires j < |ids| && Distinct(ids) && ids[j] in items
    ensures var before := Dropped(items, ids[..j]);
            ids[j] in before && before[ids[j]] == items[ids[j]]
            && Dropped(items, ids[..j + 1]) == before - {ids[j]}
    ensures Without(RemoveAll(order, Elems(ids[..j])), ids[j]) == RemoveAll(order, Elems(ids[..j + 1]))
    ensures RemovedEvents(ids[..j + 1], items) == RemovedEvents(ids[..j], items) + [Removed(items[ids[j]])]
  {
    PrefixStep(ids, j);
    DroppedStep(items, ids[..j], ids[j]);
    WithoutAfterRemoveAll(order, Elems(ids[..j]), ids[j]);
  }

  lemma PrefixStep(ids: seq<string>, j: nat)
    requires j < |ids| && Distinct(ids)
    ensures ids[..j + 1] == ids[..j] + [ids[j]] && (ids[..j + 1])[..j] == ids[..j]
    ensures ids[j] !in ids[..j]
    ensures Elems(ids[..j + 1]) == Elems(ids[..j]) + {ids[j]}
  {
    assert ids[..j + 1] == ids[..j] + [ids[j]];
  }

  lemma DroppedStep(items: map<string, Item>, ids: seq<string>, id: string)
    requires id in items && id !in ids
    ensures id in Dropped(items, ids) && Dropped(items, ids)[id] == items[id]
    ensures Dropped(items, ids + [id]) == Dropped(items, ids) - {id}
  {
  }

  /** Removing the collected completed ids drops exactly the completed items. */
  lemma DroppedCompleted(items: map<string, Item>, order: seq<string>)
    requires forall id :: id in items <==> id in order
    ensures Dropped(items, CompletedIds(order, items)) == map id | id in items && items[id].status != Completed :: items[id]
    ensures Elems(CompletedIds(order, items)) == set id | id in items && items[id].status == Completed
  {
    CompletedIdsExactly(order, items);
  }

  /** The map after `add` of each entry in turn. */
  function BatchMap(items: map<string, Item>, entries: seq<Entry>, times: seq<int>): map<string, Item>
    requires |times| == |entries|
  {
    if entries == [] then items
    else
      var n := |entries| - 1;
      var m := BatchMap(items, entries[..n], times[..n]);
      if entries[n].id in m then m else m[entries[n].id := NewItem(entries[n], times[n])]
  }

  /** The `add` events of a batch: one per entry whose id was not yet known. */
  ghost function BatchEvents(items: map<string, Item>, entries: seq<Entry>, times: seq<int>): seq<Event>
    requires |times| == |entries|
  {
    if entries == [] then []
    else
      var n := |entries| - 1;
      BatchEvents(items, entries[..n], times[..n])
      + (if entries[n].id in BatchMap(items, entries[..n], times[..n]) then [] else [Added(NewItem(entries[n], times[n]))])
  }

  lemma AppendStep<T>(start: seq<T>, done: seq<T>, step: seq<T>, before: seq<T>, after: seq<T>)
    requires before == start + done && after == before + step
    ensures after == start + (done + step)
  {
  }

  /** One more entry of a batch taken. */
  lemma BatchStep(items: map<string, Item>, known: seq<string>, entries: seq<Entry>, times: seq<int>, k: nat)
    requires |times| == |entries| && k < |entries|
    ensures Ids(entries[..k + 1]) == Ids(entries[..k]) + [entries[k].id]
    ensures AddAll(known, Ids(entries[..k + 1])) == Add(AddAll(known, Ids(entries[..k])), entries[k].id)
    ensures var m := BatchMap(items, entries[..k], times[..k]);
            var e := entries[k];
            BatchMap(items, entries[..k + 1], times[..k + 1])
            == if e.id in m then m else m[e.id := NewItem(e, times[k])]
    ensures BatchEvents(items, entries[..k + 1], times[..k + 1])
            == BatchEvents(items, entries[..k], times[..k])
               + (if entries[k].id in BatchMap(items, entries[..k], times[..k]) then [] else [Added(NewItem(entries[k], times[k]))])
  {
    assert entries[..k + 1] == entries[..k] + [entries[k]] && (entries[..k + 1])[..k] == entries[..k];
    assert (times[..k + 1])[..k] == times[..k];
    var ids := Ids(entries[..k + 1]);
    assert ids[..|ids| - 1] == Ids(entries[..k]);
  }

  /** A batch keeps every item already queued, and each new id holds the item
      made from the first entry that carries it. */
  lemma {:induction false} BatchFirstEntryWins(items: map<string, Item>, entries: seq<Entry>, times: seq<int>, id: string)
    requires |times| == |entries|
    ensures var m := BatchMap(items, entries, times);
            (id in m <==> id in items || id in Ids(entries))
            && (id in items ==> m[id] == items[id])
            && (id in m && id !in items ==>
                  var j := IndexOf(Ids(entries), id); 0 <= j && m[id] == NewItem(entries[j], times[j]))
  {
    if entries != [] {
      var n := |entries| - 1;
      BatchFirstEntryWins(items, entries[..n], times[..n], id);
      assert Ids(entries) == Ids(entries[..n]) + [entries[n].id];
      IndexOfAppend(Ids(entries[..n]), entries[n].id, id);
    }
  }

  function Ids(entries: seq<Entry>): (r: seq<string>)
    ensures |r| == |entries| && forall i :: 0 <= i < |entries| ==> r[i] == entries[i].id
  {
    if entries == [] then [] else Ids(entries[..|entries| - 1]) + [entries[|entries| - 1].id]
  }

  lemma KeysMatchOrder(items: map<string, Item>, order: seq<string>)
    requires Distinct(order) && forall id :: id in items <==> id in order
    ensures |items| == |order|
  {
    assert items.Keys == set id | id in order;
    DistinctCardinality(order);
  }

  lemma {:induction false} DistinctCardinality(s: seq<string>)
    requires Distinct(s)
    ensures |set x | x in s| == |s|
  {
    if s != [] {
      var last := s[|s| - 1];
      var front := s[..|s| - 1];
      assert Distinct(front);
      DistinctCardinality(front);
      assert (set x | x in s) == (set x | x in front) + {last};
      assert last !in front;
    }
  }
}
