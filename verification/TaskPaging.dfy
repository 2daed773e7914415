/** Following the cursor: every live task of a session once, in order, whatever page sizes are asked for. */
module TaskPaging {
  import opened Wrappers
  import opened JsText
  import opened Cursor
  import opened TaskStore

  ghost predicate UniqueIds(tasks: seq<Task>) {
    forall i, j :: 0 <= i < j < |tasks| ==> tasks[i].taskId != tasks[j].taskId
  }

  /** The fields that decide where a task is listed; no patch of a repair touches them. */
  ghost predicate SameKey(a: Task, b: Task) {
    a.taskId == b.taskId && a.sessionId == b.sessionId && a.createdAt == b.createdAt && a.expiresAt == b.expiresAt
  }

  ghost predicate SameKeys(a: seq<Task>, b: seq<Task>) {
    |a| == |b| && forall i :: 0 <= i < |a| ==> SameKey(a[i], b[i])
  }

  ghost predicate LiveIn(t: Task, sessionId: string, now: int) {
    t.sessionId == sessionId && t.expiresAt > now
  }

  // ---------------------------------------------------------------- listing order

  lemma LeTransitive(a: Task, b: Task, c: Task)
    requires Le(a, b) && Le(b, c)
    ensures Le(a, c)
  {
    if a.createdAt == b.createdAt == c.createdAt {
      LexLeTransitive(CodePoints(a.taskId), CodePoints(b.taskId), CodePoints(c.taskId));
    }
  }

  lemma LeTotal(a: Task, b: Task)
    ensures Le(a, b) || Le(b, a)
  {
    LexLeTotal(CodePoints(a.taskId), CodePoints(b.taskId));
  }

  ghost predicate Ascending(s: seq<Task>) {
    forall i, j :: 0 <= i < j < |s| ==> Le(s[i], s[j])
  }

  lemma {:induction false} InsertAscends(t: Task, s: seq<Task>)
    requires Ascending(s)
    ensures Ascending(Insert(t, s))
    ensures multiset(Insert(t, s)) == multiset(s) + multiset{t}
  {
    hide Le;
    if s == [] {
    } else if Le(t, s[0]) {
      forall j | 0 <= j < |s|
        ensures Le(t, s[j])
      {
        if j > 0 {
          LeTransitive(t, s[0], s[j]);
        }
      }
      assert multiset([t] + s) == multiset{t} + multiset(s);
    } else {
      LeTotal(t, s[0]);
      var rest := Insert(t, s[1..]);
      InsertAscends(t, s[1..]);
      assert s == [s[0]] + s[1..];
      forall j | 0 <= j < |rest|
        ensures Le(s[0], rest[j])
      {
        assert rest[j] in multiset(rest);
        assert rest[j] in multiset(s[1..]) || rest[j] == t;
      }
    }
  }

  lemma {:induction false} SortedAscends(tasks: seq<Task>)
    ensures Ascending(Sorted(tasks)) && multiset(Sorted(tasks)) == multiset(tasks)
  {
    if tasks != [] {
      SortedAscends(tasks[1..]);
      InsertAscends(tasks[0], Sorted(tasks[1..]));
      assert tasks == [tasks[0]] + tasks[1..];
    }
  }

  lemma {:induction false} SelectIsLive(tasks: seq<Task>, sessionId: string, now: int)
    requires UniqueIds(tasks)
    ensures forall t :: t in Select(tasks, sessionId, now) <==> t in tasks && LiveIn(t, sessionId, now)
    ensures UniqueIds(Select(tasks, sessionId, now))
  {
    if tasks != [] {
      SelectIsLive(tasks[1..], sessionId, now);
      assert tasks == [tasks[0]] + tasks[1..];
      var rest := Select(tasks[1..], sessionId, now);
      forall j | 0 <= j < |rest|
        ensures rest[j].taskId != tasks[0].taskId
      {
        assert rest[j] in tasks[1..];
      }
    }
  }

  // ---------------------------------------------------------------- keys decide the order

  lemma {:induction false} SelectByKeys(a: seq<Task>, b: seq<Task>, sessionId: string, now: int)
    requires SameKeys(a, b)
    ensures SameKeys(Select(a, sessionId, now), Select(b, sessionId, now))
  {
    if a != [] {
      assert SameKey(a[0], b[0]);
      SelectByKeys(a[1..], b[1..], sessionId, now);
    }
  }

  lemma {:induction false} InsertByKeys(t: Task, u: Task, a: seq<Task>, b: seq<Task>)
    requires SameKey(t, u) && SameKeys(a, b)
    ensures SameKeys(Insert(t, a), Insert(u, b))
  {
    if a != [] && !Le(t, a[0]) {
      assert SameKey(a[0], b[0]);
      InsertByKeys(t, u, a[1..], b[1..]);
    }
  }

  lemma {:induction false} SortedByKeys(a: seq<Task>, b: seq<Task>)
    requires SameKeys(a, b)
    ensures SameKeys(Sorted(a), Sorted(b))
  {
    if a != [] {
      SortedByKeys(a[1..], b[1..]);
      InsertByKeys(a[0], b[0], Sorted(a[1..]), Sorted(b[1..]));
    }
  }

  // ---------------------------------------------------------------- repairs keep the keys

  lemma RepairKeepsKeys(tasks: seq<Task>, row: Task, clock: Clock, alive: int -> bool, j: nat)
    requires UniqueIds(tasks) && j < |tasks| && SameKey(tasks[j], row)
    requires row.expiresAt > clock.checkAt && row.expiresAt > clock.keepAt
    ensures var (after, record, _) := Repair(tasks, row, clock, alive);
            SameKeys(tasks, after) && SameKey(row, record)
  {
    var i := IndexOf(tasks, row.taskId);
    assert i == Some(j);
  }

  lemma SameKeysTrans(a: seq<Task>, b: seq<Task>, c: seq<Task>)
    requires SameKeys(a, b) && SameKeys(b, c)
    ensures SameKeys(a, c)
  {
    forall i | 0 <= i < |a|
      ensures SameKey(a[i], c[i])
    {
      assert SameKey(a[i], b[i]) && SameKey(b[i], c[i]);
    }
  }

  lemma UniqueByKeys(a: seq<Task>, b: seq<Task>)
    requires UniqueIds(a) && SameKeys(a, b)
    ensures UniqueIds(b)
  {
    forall i, j | 0 <= i < j < |b|
      ensures b[i].taskId != b[j].taskId
    {
      assert SameKey(a[i], b[i]) && SameKey(a[j], b[j]);
    }
  }

  /** No task's deadline lies between two instants. */
  ghost predicate Steady(tasks: seq<Task>, now: int, at: int) {
    forall i :: 0 <= i < |tasks| ==> (tasks[i].expiresAt > now <==> tasks[i].expiresAt > at)
  }

  /** Nor between an instant and any clock read of a request. */
  ghost predicate SteadyReads(tasks: seq<Task>, now: int, times: Reads) {
    && Steady(tasks, now, times.selectAt) && Steady(tasks, now, times.countAt)
    && (forall k :: Steady(tasks, now, times.clocks(k).checkAt) && Steady(tasks, now, times.clocks(k).keepAt))
  }

  lemma SteadyByKeys(a: seq<Task>, b: seq<Task>, now: int, times: Reads)
    requires SameKeys(a, b) && SteadyReads(a, now, times)
    ensures SteadyReads(b, now, times)
  {
    forall at | Steady(a, now, at)
      ensures Steady(b, now, at)
    {
      forall i | 0 <= i < |b|
        ensures b[i].expiresAt > now <==> b[i].expiresAt > at
      {
        assert SameKey(a[i], b[i]);
      }
    }
  }

  lemma {:induction false} SelectSteady(tasks: seq<Task>, sessionId: string, now: int, at: int)
    requires Steady(tasks, now, at)
    ensures Select(tasks, sessionId, at) == Select(tasks, sessionId, now)
  {
    if tasks != [] {
      SelectSteady(tasks[1..], sessionId, now, at);
    }
  }

  lemma {:induction false} RepairAllKeepsKeys(tasks: seq<Task>, rows: seq<Task>, now: int, times: Reads,
                                              alive: int -> bool)
    requires UniqueIds(tasks) && SteadyReads(tasks, now, times)
    requires forall r :: r in rows ==> r in tasks && r.expiresAt > now
    ensures var (after, records, _) := RepairAll(tasks, rows, times.clocks, alive);
            SameKeys(tasks, after) && SameKeys(rows, records)
  {
    if rows != [] {
      var n := |rows| - 1;
      RepairAllKeepsKeys(tasks, rows[..n], now, times, alive);
      var mid := RepairAll(tasks, rows[..n], times.clocks, alive).0;
      UniqueByKeys(tasks, mid);
      assert rows[n] in rows;
      var j :| 0 <= j < |tasks| && tasks[j] == rows[n];
      assert SameKey(tasks[j], mid[j]);
      var clock := times.clocks(n);
      assert Steady(tasks, now, clock.checkAt) && Steady(tasks, now, clock.keepAt);
      RepairKeepsKeys(mid, rows[n], clock, alive, j);
      SameKeysTrans(tasks, mid, RepairAll(tasks, rows, times.clocks, alive).0);
    }
  }

  // ---------------------------------------------------------------- one page

  function Listing(tasks: seq<Task>, sessionId: string, now: int): seq<Task> {
    Sorted(Select(tasks, sessionId, now))
  }

  /** The listing holds each live task of the session once, in order. */
  lemma ListingIsLive(tasks: seq<Task>, sessionId: string, now: int)
    requires UniqueIds(tasks)
    ensures var all := Listing(tasks, sessionId, now);
            && |all| == |Select(tasks, sessionId, now)|
            && Ascending(all) && UniqueIds(all)
            && (forall t :: t in all <==> t in tasks && LiveIn(t, sessionId, now))
  {
    var selected, all := Select(tasks, sessionId, now), Listing(tasks, sessionId, now);
    SelectIsLive(tasks, sessionId, now);
    SortedAscends(selected);
    UniqueByCount(selected, all);
    hide Select, Sorted, UniqueIds, Ascending;
    assert |multiset(all)| == |multiset(selected)|;
    forall t
      ensures t in all <==> t in selected
    {
      assert t in multiset(all) <==> t in multiset(selected);
    }
  }

  lemma SliceMembers(s: seq<Task>, limit: nat, offset: nat)
    ensures forall t :: t in Slice(s, limit, offset) ==> t in s
  {
  }

  lemma SliceShape(s: seq<Task>, limit: nat, offset: nat)
    ensures offset < |s| && limit > 0 ==> Slice(s, limit, offset) != []
    ensures offset <= |s| ==>
              && offset + |Slice(s, limit, offset)| <= |s|
              && Slice(s, limit, offset) == s[offset..offset + |Slice(s, limit, offset)|]
    ensures offset > |s| ==> Slice(s, limit, offset) == []
  {
  }

  /** The page continues the listing at an offset, and names where it stops unless it is the last. */
  ghost predicate IsPageAt(parse: Parser, all: seq<Task>, offset: nat, page: Page) {
    if page.nextCursor.None? then SameKeys(if offset <= |all| then all[offset..] else [], page.tasks)
    else
      var next := OffsetOf(parse, page.nextCursor);
      offset < next < |all| && SameKeys(all[offset..next], page.tasks)
  }

  /** A page is the next stretch of the listing, and its cursor, when there is one, points just past it. */
  lemma PageOfListing(parse: Parser, tasks: seq<Task>, sessionId: string, cursor: Option<string>,
                      requested: Option<int>, times: Reads, alive: int -> bool, now: int)
    requires UniqueIds(tasks) && ReadsCursors(parse) && SteadyReads(tasks, now, times)
    ensures var offset, all := OffsetOf(parse, cursor), Listing(tasks, sessionId, now);
            var (after, page, _) := List(parse, tasks, sessionId, cursor, requested, times, alive);
            SameKeys(tasks, after) && IsPageAt(parse, all, offset, page)
  {
    hide List, Listing, OffsetOf, EncodeCursor, RepairAll, Select;
    hide UniqueIds, PageSize, SameKeys, Slice, ReadsCursors, Steady;
    var offset, all := OffsetOf(parse, cursor), Listing(tasks, sessionId, now);
    var rows := Slice(all, PageSize(requested), offset);
    ListUnfolds(parse, tasks, sessionId, cursor, requested, times, alive, now);
    SliceShape(all, PageSize(requested), offset);
    RepairedRows(tasks, sessionId, rows, times, alive, now, PageSize(requested), offset);
    NextCursorReads(parse, offset + |rows|);
    var page := List(parse, tasks, sessionId, cursor, requested, times, alive).1;
    if offset + |rows| < |all| {
      assert OffsetOf(parse, page.nextCursor) == offset + |rows|;
      assert rows == all[offset..offset + |rows|];
    } else {
      assert rows == if offset <= |all| then all[offset..] else [];
    }
  }

  /** The limit is what was asked for, kept between 1 and 500, or 50; a page holds that many tasks, or what the listing has
      left from its offset; and it names a next one exactly when the listing goes on after it. */
  lemma PageLength(parse: Parser, tasks: seq<Task>, sessionId: string, cursor: Option<string>,
                   requested: Option<int>, times: Reads, alive: int -> bool, now: int)
    requires UniqueIds(tasks) && SteadyReads(tasks, now, times)
    ensures var offset, count := OffsetOf(parse, cursor), |Listing(tasks, sessionId, now)|;
            var limit := if requested.None? then 50 else if requested.value < 1 then 1
                         else if requested.value > 500 then 500 else requested.value;
            var page := List(parse, tasks, sessionId, cursor, requested, times, alive).1;
            && |page.tasks| == (if offset >= count then 0 else if offset + limit >= count then count - offset else limit)
            && (page.nextCursor.Some? <==> offset + limit < count)
  {
    hide List, Listing, OffsetOf, EncodeCursor, RepairAll, Select, UniqueIds, Steady;
    var offset, all := OffsetOf(parse, cursor), Listing(tasks, sessionId, now);
    var rows := Slice(all, PageSize(requested), offset);
    ListUnfolds(parse, tasks, sessionId, cursor, requested, times, alive, now);
    RepairedRows(tasks, sessionId, rows, times, alive, now, PageSize(requested), offset);
  }

  /** The record handed out for a row that was read: an unfinished task of a dead CLI process has failed, and its end was
      published; any other row is handed out as it was read. */
  ghost predicate Settles(row: Task, record: Task, events: seq<Task>, alive: int -> bool) {
    if !Terminal(row.status) && row.executor.Some? && row.executor.value.cli && row.executor.value.pid.Some?
       && !alive(row.executor.value.pid.value) then record.status == Failed && record in events
    else record == row
  }

  lemma RepairSettles(tasks: seq<Task>, row: Task, clock: Clock, alive: int -> bool, j: nat)
    requires UniqueIds(tasks) && j < |tasks| && SameKey(tasks[j], row)
    requires row.expiresAt > clock.checkAt && row.expiresAt > clock.keepAt
    ensures var (_, record, events) := Repair(tasks, row, clock, alive);
            Settles(row, record, events, alive) && EndsOf(events, [record])
  {
    assert IndexOf(tasks, row.taskId) == Some(j);
  }

  /** The events published are of tasks handed out, which have failed. */
  ghost predicate EndsOf(events: seq<Task>, records: seq<Task>) {
    forall e :: e in events ==> e in records && e.status == Failed
  }

  ghost predicate AllSettle(rows: seq<Task>, records: seq<Task>, events: seq<Task>, alive: int -> bool) {
    |records| == |rows| && forall i :: 0 <= i < |rows| ==> Settles(rows[i], records[i], events, alive)
  }

  lemma SettleMore(rows: seq<Task>, records: seq<Task>, events: seq<Task>, row: Task, record: Task, more: seq<Task>,
                   alive: int -> bool)
    requires AllSettle(rows, records, events, alive) && Settles(row, record, more, alive)
    requires EndsOf(events, records) && EndsOf(more, [record])
    ensures AllSettle(rows + [row], records + [record], events + more, alive)
    ensures EndsOf(events + more, records + [record])
  {
    forall i | 0 <= i < |rows|
      ensures Settles(rows[i], records[i], events + more, alive)
    {
      assert Settles(rows[i], records[i], events, alive);
    }
  }

  lemma {:induction false} RepairAllSettles(tasks: seq<Task>, rows: seq<Task>, now: int, times: Reads,
                                            alive: int -> bool)
    requires UniqueIds(tasks) && SteadyReads(tasks, now, times)
    requires forall r :: r in rows ==> r in tasks && r.expiresAt > now
    ensures var (_, records, events) := RepairAll(tasks, rows, times.clocks, alive);
            AllSettle(rows, records, events, alive) && EndsOf(events, records)
  {
    hide Repair, SameKey, Settles, UniqueIds;
    if rows != [] {
      var n := |rows| - 1;
      RepairAllSettles(tasks, rows[..n], now, times, alive);
      RepairAllKeepsKeys(tasks, rows[..n], now, times, alive);
      var (mid, records, events) := RepairAll(tasks, rows[..n], times.clocks, alive);
      UniqueByKeys(tasks, mid);
      assert rows[n] in rows;
      var j :| 0 <= j < |tasks| && tasks[j] == rows[n];
      assert SameKey(tasks[j], mid[j]);
      assert Steady(tasks, now, times.clocks(n).checkAt) && Steady(tasks, now, times.clocks(n).keepAt);
      SameKeySym(tasks[j], mid[j]);
      hide Steady, AllSettle, EndsOf;
      RepairSettles(mid, rows[n], times.clocks(n), alive, j);
      var (_, record, more) := Repair(mid, rows[n], times.clocks(n), alive);
      SettleMore(rows[..n], records, events, rows[n], record, more, alive);
      assert rows == rows[..n] + [rows[n]];
    }
  }

  lemma SameKeySym(a: Task, b: Task)
    requires SameKey(a, b)
    ensures SameKey(b, a)
  {
  }

  /** While deadlines hold, the tasks on a page are the rows of the listing, each settled, and no other end is published:
      so no page shows an unfinished task of a CLI process that is dead. */
  lemma PageSettles(parse: Parser, tasks: seq<Task>, sessionId: string, cursor: Option<string>,
                    requested: Option<int>, times: Reads, alive: int -> bool, now: int)
    requires UniqueIds(tasks) && SteadyReads(tasks, now, times)
    ensures var offset, all := OffsetOf(parse, cursor), Listing(tasks, sessionId, now);
            var (_, page, events) := List(parse, tasks, sessionId, cursor, requested, times, alive);
            && (forall i :: 0 <= i < |page.tasks| ==>
                  offset + i < |all| && Settles(all[offset + i], page.tasks[i], events, alive))
            && (forall e :: e in events ==> e in page.tasks && e.status == Failed)
            && (forall t :: t in page.tasks ==>
                  Terminal(t.status) || t.executor.None? || !t.executor.value.cli || t.executor.value.pid.None?
                  || alive(t.executor.value.pid.value))
  {
    hide List, Listing, OffsetOf, EncodeCursor, RepairAll, Select, UniqueIds, Steady, PageSize, Ascending, Settles;
    var offset, all := OffsetOf(parse, cursor), Listing(tasks, sessionId, now);
    var rows := Slice(all, PageSize(requested), offset);
    ListUnfolds(parse, tasks, sessionId, cursor, requested, times, alive, now);
    ListingIsLive(tasks, sessionId, now);
    SliceMembers(all, PageSize(requested), offset);
    RepairAllSettles(tasks, rows, now, times, alive);
    SliceShape(all, PageSize(requested), offset);
    hide Slice;
    var (_, records, events) := RepairAll(tasks, rows, times.clocks, alive);
    SettledIsNoOrphan(rows, records, events, alive);
    forall i | 0 <= i < |records|
      ensures offset + i < |all| && rows[i] == all[offset + i]
    {
    }
  }

  lemma SettledIsNoOrphan(rows: seq<Task>, records: seq<Task>, events: seq<Task>, alive: int -> bool)
    requires AllSettle(rows, records, events, alive)
    ensures forall t :: t in records ==>
              Terminal(t.status) || t.executor.None? || !t.executor.value.cli || t.executor.value.pid.None?
              || alive(t.executor.value.pid.value)
  {
    forall t | t in records
      ensures Terminal(t.status) || t.executor.None? || !t.executor.value.cli || t.executor.value.pid.None?
              || alive(t.executor.value.pid.value)
    {
      var i :| 0 <= i < |records| && records[i] == t;
      assert Settles(rows[i], records[i], events, alive);
    }
  }

  lemma RepairedRows(tasks: seq<Task>, sessionId: string, rows: seq<Task>, times: Reads, alive: int -> bool, now: int,
                     limit: nat, offset: nat)
    requires UniqueIds(tasks) && SteadyReads(tasks, now, times)
    requires rows == Slice(Listing(tasks, sessionId, now), limit, offset)
    ensures var (after, records, _) := RepairAll(tasks, rows, times.clocks, alive);
            && SameKeys(tasks, after) && SameKeys(rows, records)
            && |Select(after, sessionId, times.countAt)| == |Listing(tasks, sessionId, now)|
  {
    hide Listing, Ascending, RepairAll, Select, Steady;
    ListingIsLive(tasks, sessionId, now);
    SliceMembers(Listing(tasks, sessionId, now), limit, offset);
    RepairAllKeepsKeys(tasks, rows, now, times, alive);
    var after := RepairAll(tasks, rows, times.clocks, alive).0;
    SelectByKeys(tasks, after, sessionId, now);
    SteadyByKeys(tasks, after, now, times);
    SelectSteady(after, sessionId, now, times.countAt);
  }

  lemma ListUnfolds(parse: Parser, tasks: seq<Task>, sessionId: string, cursor: Option<string>,
                    requested: Option<int>, times: Reads, alive: int -> bool, now: int)
    requires SteadyReads(tasks, now, times)
    ensures var offset := OffsetOf(parse, cursor);
            var rows := Slice(Listing(tasks, sessionId, now), PageSize(requested), offset);
            var (after, records, events) := RepairAll(tasks, rows, times.clocks, alive);
            List(parse, tasks, sessionId, cursor, requested, times, alive)
            == (after,
                Page(records, if offset + |rows| < |Select(after, sessionId, times.countAt)|
                              then Some(EncodeCursor(offset + |rows|)) else None),
                events)
  {
    hide DecodeCursor, EncodeCursor, Select, Sorted, Slice, RepairAll, OffsetOf, Steady;
    SelectSteady(tasks, sessionId, now, times.selectAt);
  }

  lemma NextCursorReads(parse: Parser, offset: nat)
    requires ReadsCursors(parse)
    ensures OffsetOf(parse, Some(EncodeCursor(offset))) == offset
  {
    CursorRoundTrip(parse, offset);
    ToB64UrlIsSafe(CursorBytes(offset));
  }

  // ---------------------------------------------------------------- the whole walk

  ghost predicate AlwaysSteady(tasks: seq<Task>, now: int, times: nat -> Reads) {
    forall k :: SteadyReads(tasks, now, times(k))
  }

  lemma AlwaysSteadyByKeys(a: seq<Task>, b: seq<Task>, now: int, times: nat -> Reads)
    requires SameKeys(a, b) && AlwaysSteady(a, now, times)
    ensures AlwaysSteady(b, now, times)
  {
    forall k
      ensures SteadyReads(b, now, times(k))
    {
      SteadyByKeys(a, b, now, times(k));
    }
  }

  /** Follows cursors to the end. Each request may ask for any page size, read its clocks, see any processes alive, and
      repair the table before the next; the records are those handed out, in order. */
  ghost function Walk(parse: Parser, tasks: seq<Task>, sessionId: string, cursor: Option<string>,
                      sizes: nat -> Option<int>, times: nat -> Reads, probes: nat -> int -> bool,
                      k: nat, now: int): seq<Task>
    requires UniqueIds(tasks) && ReadsCursors(parse) && AlwaysSteady(tasks, now, times)
    decreases |Listing(tasks, sessionId, now)| - OffsetOf(parse, cursor)
  {
    var (after, page, _) := List(parse, tasks, sessionId, cursor, sizes(k), times(k), probes(k));
    if page.nextCursor.None? then page.tasks
    else
      PageOfListing(parse, tasks, sessionId, cursor, sizes(k), times(k), probes(k), now);
      UniqueByKeys(tasks, after);
      AlwaysSteadyByKeys(tasks, after, now, times);
      ListingByKeys(tasks, after, sessionId, now);
      page.tasks + Walk(parse, after, sessionId, page.nextCursor, sizes, times, probes, k + 1, now)
  }

  lemma ListingByKeys(a: seq<Task>, b: seq<Task>, sessionId: string, now: int)
    requires SameKeys(a, b)
    ensures SameKeys(Listing(a, sessionId, now), Listing(b, sessionId, now))
  {
    SelectByKeys(a, b, sessionId, now);
    SortedByKeys(Select(a, sessionId, now), Select(b, sessionId, now));
  }

  lemma SameKeysConcat(a: seq<Task>, b: seq<Task>, c: seq<Task>, d: seq<Task>)
    requires SameKeys(a, b) && SameKeys(c, d)
    ensures SameKeys(a + c, b + d)
  {
    forall i | 0 <= i < |a + c|
      ensures SameKey((a + c)[i], (b + d)[i])
    {
      assert i < |a| ==> SameKey(a[i], b[i]);
      assert i >= |a| ==> SameKey(c[i - |a|], d[i - |a|]);
    }
  }

  lemma {:induction false} WalkFollowsListing(
      parse: Parser, tasks: seq<Task>, sessionId: string, cursor: Option<string>,
      sizes: nat -> Option<int>, times: nat -> Reads, probes: nat -> int -> bool, k: nat, now: int)
    requires UniqueIds(tasks) && ReadsCursors(parse) && AlwaysSteady(tasks, now, times)
    requires OffsetOf(parse, cursor) <= |Listing(tasks, sessionId, now)|
    ensures SameKeys(Listing(tasks, sessionId, now)[OffsetOf(parse, cursor)..],
                     Walk(parse, tasks, sessionId, cursor, sizes, times, probes, k, now))
    decreases |Listing(tasks, sessionId, now)| - OffsetOf(parse, cursor)
  {
    hide List, Listing, OffsetOf, SameKey, SteadyReads;
    var (after, page, _) := List(parse, tasks, sessionId, cursor, sizes(k), times(k), probes(k));
    var offset, all := OffsetOf(parse, cursor), Listing(tasks, sessionId, now);
    PageOfListing(parse, tasks, sessionId, cursor, sizes(k), times(k), probes(k), now);
    if page.nextCursor.Some? {
      var next, later := OffsetOf(parse, page.nextCursor), Listing(after, sessionId, now);
      UniqueByKeys(tasks, after);
      AlwaysSteadyByKeys(tasks, after, now, times);
      ListingByKeys(tasks, after, sessionId, now);
      WalkFollowsListing(parse, after, sessionId, page.nextCursor, sizes, times, probes, k + 1, now);
      var rest := Walk(parse, after, sessionId, page.nextCursor, sizes, times, probes, k + 1, now);
      forall i | 0 <= i < |all[next..]|
        ensures SameKey(all[next..][i], later[next..][i])
      {
        assert SameKey(all[next + i], later[next + i]);
      }
      SameKeysTrans(all[next..], later[next..], rest);
      SameKeysConcat(all[offset..next], page.tasks, all[next..], rest);
      assert all[offset..] == all[offset..next] + all[next..];
    }
  }

  ghost predicate HandedOut(t: Task, w: seq<Task>) {
    exists i :: 0 <= i < |w| && SameKey(t, w[i])
  }

  ghost predicate IsLiveTask(u: Task, tasks: seq<Task>, sessionId: string, now: int) {
    exists t :: t in tasks && LiveIn(t, sessionId, now) && SameKey(t, u)
  }

  /** With fixed membership, and no deadline passing on the way, the walk from the start hands out each live task of the
      session exactly once, in (created_at, task_id) order, for any page sizes and whatever repairs happen on the way. */
  lemma WalkListsEachTaskOnce(parse: Parser, tasks: seq<Task>, sessionId: string,
                              sizes: nat -> Option<int>, times: nat -> Reads, probes: nat -> int -> bool, now: int)
    requires UniqueIds(tasks) && ReadsCursors(parse) && AlwaysSteady(tasks, now, times)
    ensures var w := Walk(parse, tasks, sessionId, None, sizes, times, probes, 0, now);
            && |w| == |Select(tasks, sessionId, now)|
            && (forall i, j :: 0 <= i < j < |w| ==> Le(w[i], w[j]) && w[i].taskId != w[j].taskId)
            && (forall t :: t in tasks && LiveIn(t, sessionId, now) ==> HandedOut(t, w))
            && (forall i :: 0 <= i < |w| ==> IsLiveTask(w[i], tasks, sessionId, now))
  {
    hide Walk, Listing, Select, SameKey, LiveIn, Le;
    var w, all := Walk(parse, tasks, sessionId, None, sizes, times, probes, 0, now), Listing(tasks, sessionId, now);
    WalkFollowsListing(parse, tasks, sessionId, None, sizes, times, probes, 0, now);
    ListingIsLive(tasks, sessionId, now);
    assert all[0..] == all;
    KeysShareIds(all, w);
    forall t | t in tasks && LiveIn(t, sessionId, now)
      ensures HandedOut(t, w)
    {
      var i :| 0 <= i < |all| && all[i] == t;
      assert SameKey(t, w[i]);
    }
    forall i | 0 <= i < |w|
      ensures IsLiveTask(w[i], tasks, sessionId, now)
    {
      assert all[i] in all && SameKey(all[i], w[i]);
      assert all[i] in tasks && LiveIn(all[i], sessionId, now);
    }
  }

  lemma KeysShareIds(all: seq<Task>, w: seq<Task>)
    requires SameKeys(all, w) && Ascending(all) && UniqueIds(all)
    ensures Ascending(w) && UniqueIds(w)
  {
    UniqueByKeys(all, w);
    forall i, j | 0 <= i < j < |w|
      ensures Le(w[i], w[j])
    {
      assert SameKey(all[i], w[i]) && SameKey(all[j], w[j]) && Le(all[i], all[j]);
    }
  }

  lemma {:induction false} UniqueByCount(a: seq<Task>, b: seq<Task>)
    requires UniqueIds(a) && multiset(a) == multiset(b)
    ensures UniqueIds(b)
  {
    forall i, j | 0 <= i < j < |b|
      ensures b[i].taskId != b[j].taskId
    {
      assert b[i] in multiset(b) && b[j] in multiset(b);
      var p :| 0 <= p < |a| && a[p] == b[i];
      var q :| 0 <= q < |a| && a[q] == b[j];
      if b[i] == b[j] {
        assert b == b[..i] + [b[i]] + b[i + 1..j] + [b[j]] + b[j + 1..];
        assert multiset(b)[b[i]] >= 2;
        UniqueCount(a, b[i]);
      }
    }
  }

  lemma {:induction false} UniqueCount(a: seq<Task>, t: Task)
    requires UniqueIds(a)
    ensures multiset(a)[t] <= 1
  {
    if a != [] {
      UniqueCount(a[1..], t);
      assert a == [a[0]] + a[1..];
      if t == a[0] {
        assert t !in a[1..];
      }
    }
  }
}
