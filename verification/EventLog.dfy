/** What the event store keeps over whole runs: ids never clash, the table is a bounded append log,
    and replay resumes a stream exactly. */
module EventLog {
  import opened Wrappers
  import opened JsText
  import opened EventStore

  /** A run interleaves store calls, cleanup ticks and process restarts; each carries the clock it reads. */
  datatype Step =
    | Append(stream: string, message: string, sweepAt: int, storedAt: int)
    | Cleanup(now: int)
    | Restart

  function Apply(cfg: Config, s: Store, step: Step): Store {
    match step
    case Append(stream, message, sweepAt, storedAt) => StoreEvent(cfg, s, stream, message, sweepAt, storedAt).0
    case Cleanup(now) => Sweep(cfg, s, now)
    case Restart => s.(counters := map[])
  }

  function Run(cfg: Config, s: Store, steps: seq<Step>): Store
    decreases |steps|
  {
    if steps == [] then s else Run(cfg, Apply(cfg, s, steps[0]), steps[1..])
  }

  /** The rows one step inserts. */
  function AppendedBy(cfg: Config, s: Store, step: Step): seq<Row> {
    match step
    case Append(stream, message, sweepAt, storedAt) =>
      if StoreEvent(cfg, s, stream, message, sweepAt, storedAt).1.Some?
      then [NewRow(cfg, s, stream, message, sweepAt, storedAt)] else []
    case _ => []
  }

  /** Every row a run inserts, in order. */
  function Appended(cfg: Config, s: Store, steps: seq<Step>): seq<Row>
    decreases |steps|
  {
    if steps == [] then []
    else AppendedBy(cfg, s, steps[0]) + Appended(cfg, Apply(cfg, s, steps[0]), steps[1..])
  }

  // ---------------------------------------------------------------- ids

  function CounterOf(r: Row): int {
    var parsed := ParseInt(AfterLastColon(r.id));
    if parsed.Some? then parsed.value else 0
  }

  ghost predicate Named(r: Row) {
    r.id == EventId(r.stream, CounterOf(r)) && CounterOf(r) >= 1
  }

  ghost predicate Before(a: Row, b: Row) {
    a.rowid < b.rowid && (a.stream == b.stream ==> CounterOf(a) < CounterOf(b))
  }

  ghost predicate RowsOk(rows: seq<Row>) {
    && (forall i {:trigger Named(rows[i])} :: 0 <= i < |rows| ==> Named(rows[i]))
    && (forall i, j {:trigger Before(rows[i], rows[j])} :: 0 <= i < j < |rows| ==> Before(rows[i], rows[j]))
  }

  /** What SQL relies on: rowids increase along the table and no id occurs twice. */
  ghost predicate Keyed(rows: seq<Row>) {
    forall i, j :: 0 <= i < j < |rows| ==> rows[i].rowid < rows[j].rowid && rows[i].id != rows[j].id
  }

  lemma RowsOkIsKeyed(rows: seq<Row>)
    requires RowsOk(rows)
    ensures Keyed(rows)
  {
    forall i, j | 0 <= i < j < |rows|
      ensures rows[i].rowid < rows[j].rowid && rows[i].id != rows[j].id
    {
      assert Before(rows[i], rows[j]) && Named(rows[i]) && Named(rows[j]);
      if rows[i].id == rows[j].id {
        EventIdInjective(rows[i].stream, CounterOf(rows[i]), rows[j].stream, CounterOf(rows[j]));
      }
    }
  }

  /** The invariant of every run, whatever the clock does. */
  ghost predicate Inv(s: Store) {
    && RowsOk(s.rows)
    && (forall k :: k in s.counters ==> s.counters[k] >= 0)
    && (forall i :: 0 <= i < |s.rows| && s.rows[i].stream in s.counters
          ==> CounterOf(s.rows[i]) <= s.counters[s.rows[i].stream])
  }

  lemma CounterOfEventId(stream: string, n: int)
    ensures ParseInt(AfterLastColon(EventId(stream, n))) == Some(n)
  {
    ParseIntOfText(n);
    AfterLastColonOfPair(stream, IntText(n));
  }

  /** `streamId:counter` is injective even when stream ids contain colons. */
  lemma EventIdInjective(s1: string, n1: int, s2: string, n2: int)
    requires EventId(s1, n1) == EventId(s2, n2)
    ensures s1 == s2 && n1 == n2
  {
    CounterOfEventId(s1, n1);
    CounterOfEventId(s2, n2);
    var id := EventId(s1, n1);
    assert id[..|id| - |IntText(n1)| - 1] == s1;
    assert id[..|id| - |IntText(n1)| - 1] == s2;
  }

  lemma RehydrateLast(rows: seq<Row>, stream: string)
    ensures rows == [] ==> Rehydrate(rows, stream) == 0
    ensures rows != [] ==>
              Rehydrate(rows, stream) == if rows[|rows| - 1].stream == stream then CounterOf(rows[|rows| - 1])
                                         else Rehydrate(rows[..|rows| - 1], stream)
  {
  }

  /** Rehydration finds the highest counter a stream has in the table: 0 when it has no row there. */
  lemma {:induction false} LastIdIsHighest(rows: seq<Row>, stream: string)
    requires RowsOk(rows)
    ensures Rehydrate(rows, stream) >= 0
    ensures forall i :: 0 <= i < |rows| && rows[i].stream == stream ==> CounterOf(rows[i]) <= Rehydrate(rows, stream)
    ensures Rehydrate(rows, stream) > 0
            ==> exists i :: 0 <= i < |rows| && rows[i].stream == stream && CounterOf(rows[i]) == Rehydrate(rows, stream)
  {
    RehydrateLast(rows, stream);
    hide Rehydrate, CounterOf, EventId;
    if rows != [] {
      var n := |rows| - 1;
      if rows[n].stream == stream {
        assert Named(rows[n]);
        forall i | 0 <= i < n && rows[i].stream == stream
          ensures CounterOf(rows[i]) < CounterOf(rows[n])
        {
          assert Before(rows[i], rows[n]);
        }
      } else {
        LastIdIsHighest(rows[..n], stream);
        forall i | 0 <= i < n && rows[i].stream == stream
          ensures CounterOf(rows[i]) <= Rehydrate(rows, stream)
        {
          assert rows[i] == rows[..n][i];
        }
        if Rehydrate(rows, stream) > 0 {
          var i :| 0 <= i < n && rows[..n][i].stream == stream && CounterOf(rows[..n][i]) == Rehydrate(rows, stream);
          assert rows[i] == rows[..n][i];
        }
      }
    }
  }

  lemma NextCounterExceeds(s: Store, stream: string)
    requires Inv(s)
    ensures NextCounter(s, stream) >= 1
    ensures forall i :: 0 <= i < |s.rows| && s.rows[i].stream == stream ==> CounterOf(s.rows[i]) < NextCounter(s, stream)
  {
    LastIdIsHighest(s.rows, stream);
    hide Rehydrate, CounterOf;
  }

  /** The INSERT of a reachable store never meets an id that is already in the table. */
  lemma NextIdIsFresh(s: Store, stream: string)
    requires Inv(s)
    ensures !HasId(s.rows, EventId(stream, NextCounter(s, stream)))
  {
    NextCounterExceeds(s, stream);
    if HasId(s.rows, EventId(stream, NextCounter(s, stream))) {
      var i :| 0 <= i < |s.rows| && s.rows[i].id == EventId(stream, NextCounter(s, stream));
      assert Named(s.rows[i]);
      EventIdInjective(s.rows[i].stream, CounterOf(s.rows[i]), stream, NextCounter(s, stream));
    }
  }

  lemma {:induction false} DeleteExpiredKeeps(rows: seq<Row>, cutoff: int, r: Row)
    ensures r in DeleteExpired(rows, cutoff) <==> r in rows && r.createdAt > cutoff
  {
    if rows != [] {
      DeleteExpiredKeeps(rows[..|rows| - 1], cutoff, r);
      assert rows == rows[..|rows| - 1] + [rows[|rows| - 1]];
    }
  }

  lemma {:induction false} DeleteExpiredKeepsOrder(rows: seq<Row>, cutoff: int)
    requires RowsOk(rows)
    ensures RowsOk(DeleteExpired(rows, cutoff))
  {
    if rows != [] {
      var init := rows[..|rows| - 1];
      var last := rows[|rows| - 1];
      DeleteExpiredKeepsOrder(init, cutoff);
      var kept := DeleteExpired(init, cutoff);
      forall i | 0 <= i < |kept|
        ensures Before(kept[i], last)
      {
        DeleteExpiredKeeps(init, cutoff, kept[i]);
        var j :| 0 <= j < |init| && init[j] == kept[i];
        assert rows[j] == init[j];
      }
    }
  }

  lemma RemoveKeepsOrder(rows: seq<Row>, k: nat)
    requires RowsOk(rows) && k < |rows|
    ensures RowsOk(rows[..k] + rows[k + 1..])
  {
    hide Named, Before;
    var kept := rows[..k] + rows[k + 1..];
    forall i | 0 <= i < |kept|
      ensures Named(kept[i])
    {
      assert Named(rows[if i < k then i else i + 1]);
    }
    forall i, j | 0 <= i < j < |kept|
      ensures Before(kept[i], kept[j])
    {
      assert Before(rows[if i < k then i else i + 1], rows[if j < k then j else j + 1]);
    }
  }

  lemma {:induction false} DeleteOldestKeepsOrder(rows: seq<Row>, count: nat)
    requires RowsOk(rows)
    ensures RowsOk(DeleteOldest(rows, count))
    ensures forall r :: r in DeleteOldest(rows, count) ==> r in rows
  {
    hide RowsOk, OldestIndex;
    if count > 0 && rows != [] {
      var i := OldestIndex(rows);
      RemoveKeepsOrder(rows, i);
      DeleteOldestKeepsOrder(rows[..i] + rows[i + 1..], count - 1);
    }
  }

  lemma SweepKeepsInv(cfg: Config, s: Store, now: int)
    requires Inv(s)
    ensures Inv(Sweep(cfg, s, now))
  {
    var swept := Sweep(cfg, s, now);
    DeleteExpiredKeepsOrder(s.rows, now - cfg.ttlMs);
    forall i | 0 <= i < |swept.rows| && swept.rows[i].stream in s.counters
      ensures CounterOf(swept.rows[i]) <= s.counters[swept.rows[i].stream]
    {
      DeleteExpiredKeeps(s.rows, now - cfg.ttlMs, swept.rows[i]);
      var j :| 0 <= j < |s.rows| && s.rows[j] == swept.rows[i];
    }
  }

  /** A row numbered by the next counter goes at the end of the table without breaking its order. */
  lemma NewRowFits(s: Store, row: Row)
    requires Inv(s)
    requires row.rowid == NextRowid(s.rows) && row.id == EventId(row.stream, NextCounter(s, row.stream))
    ensures CounterOf(row) == NextCounter(s, row.stream)
    ensures RowsOk(s.rows + [row]) && !HasId(s.rows, row.id)
  {
    hide Rehydrate, EventId;
    NextIdIsFresh(s, row.stream);
    NextCounterExceeds(s, row.stream);
    CounterOfEventId(row.stream, NextCounter(s, row.stream));
    hide CounterOf;
    forall i | 0 <= i < |s.rows|
      ensures Before(s.rows[i], row)
    {
      assert i == |s.rows| - 1 || Before(s.rows[i], s.rows[|s.rows| - 1]);
    }
    assert Named(row);
    RowsExtend(s.rows, row);
  }

  lemma RowsExtend(rows: seq<Row>, row: Row)
    requires RowsOk(rows) && Named(row) && forall i :: 0 <= i < |rows| ==> Before(rows[i], row)
    ensures RowsOk(rows + [row])
  {
    hide Named, Before;
    var all := rows + [row];
    forall i | 0 <= i < |all|
      ensures Named(all[i])
    {
      assert i < |rows| ==> Named(rows[i]);
    }
    forall i, j | 0 <= i < j < |all|
      ensures Before(all[i], all[j])
    {
      assert j < |rows| ==> Before(rows[i], rows[j]);
    }
  }

  lemma TrimKeepsOrder(cfg: Config, rows: seq<Row>)
    requires RowsOk(rows)
    ensures RowsOk(TrimToMax(cfg, rows))
    ensures forall r :: r in TrimToMax(cfg, rows) ==> r in rows
  {
    if |rows| > cfg.maxEvents {
      DeleteOldestKeepsOrder(rows, |rows| - cfg.maxEvents);
    }
  }

  lemma StoreKeepsInv(cfg: Config, s: Store, stream: string, message: string, sweepAt: int, storedAt: int)
    requires Inv(s)
    ensures Inv(StoreEvent(cfg, s, stream, message, sweepAt, storedAt).0)
    ensures StoreEvent(cfg, s, stream, message, sweepAt, storedAt).1
            == Some(EventId(stream, NextCounter(Sweep(cfg, s, sweepAt), stream)))
    ensures CounterOf(NewRow(cfg, s, stream, message, sweepAt, storedAt)) == NextCounter(Sweep(cfg, s, sweepAt), stream)
  {
    hide Rehydrate, CounterOf, RowsOk, Named, TrimToMax, DeleteExpired, EventId;
    SweepKeepsInv(cfg, s, sweepAt);
    var swept := Sweep(cfg, s, sweepAt);
    var row := NewRow(cfg, s, stream, message, sweepAt, storedAt);
    NewRowFits(swept, row);
    NextCounterExceeds(swept, stream);
    var all := swept.rows + [row];
    TrimKeepsOrder(cfg, all);
    var after := StoreEvent(cfg, s, stream, message, sweepAt, storedAt).0;
    forall i | 0 <= i < |after.rows| && after.rows[i].stream in after.counters
      ensures CounterOf(after.rows[i]) <= after.counters[after.rows[i].stream]
    {
      assert after.rows[i] in TrimToMax(cfg, all);
      var j :| 0 <= j < |all| && all[j] == after.rows[i];
    }
  }

  lemma ApplyKeepsInv(cfg: Config, s: Store, step: Step)
    requires Inv(s)
    ensures Inv(Apply(cfg, s, step))
  {
    match step
    case Append(stream, message, sweepAt, storedAt) => StoreKeepsInv(cfg, s, stream, message, sweepAt, storedAt);
    case Cleanup(now) => SweepKeepsInv(cfg, s, now);
    case Restart =>
  }

  /** Over any run of stores, evictions and restarts, under any clock, each stream's live rows carry
      strictly increasing counters, the next counter exceeds them all, and the next INSERT succeeds. */
  lemma {:induction false} IdsNeverClash(cfg: Config, s: Store, steps: seq<Step>, stream: string)
    requires Inv(s)
    ensures var end := Run(cfg, s, steps);
            && Inv(end)
            && !HasId(end.rows, EventId(stream, NextCounter(end, stream)))
            && (forall i, j :: 0 <= i < j < |end.rows| && end.rows[i].stream == end.rows[j].stream == stream
                  ==> CounterOf(end.rows[i]) < CounterOf(end.rows[j]) < NextCounter(end, stream))
    decreases |steps|
  {
    if steps == [] {
      NextIdIsFresh(s, stream);
      NextCounterExceeds(s, stream);
      forall i, j | 0 <= i < j < |s.rows| && s.rows[i].stream == s.rows[j].stream == stream
        ensures CounterOf(s.rows[i]) < CounterOf(s.rows[j])
      {
        assert Before(s.rows[i], s.rows[j]);
      }
    } else {
      ApplyKeepsInv(cfg, s, steps[0]);
      IdsNeverClash(cfg, Apply(cfg, s, steps[0]), steps[1..], stream);
    }
  }

  lemma InvIsKeyed(s: Store)
    requires Inv(s)
    ensures Keyed(s.rows)
  {
    RowsOkIsKeyed(s.rows);
  }

  // ---------------------------------------------------------------- ids are not reissued in one lifetime

  ghost predicate Above(s: Store, r: Row) {
    r.stream in s.counters ==> s.counters[r.stream] < CounterOf(r)
  }

  /** What one store call issues is above everything the counters remember. */
  lemma IssuedAbove(cfg: Config, s: Store, step: Step)
    requires Inv(s) && step.Append?
    ensures var row := NewRow(cfg, s, step.stream, step.message, step.sweepAt, step.storedAt);
            && AppendedBy(cfg, s, step) == [row]
            && Named(row) && row.stream == step.stream && Above(s, row)
            && Apply(cfg, s, step).counters == s.counters[row.stream := CounterOf(row)]
  {
    hide Rehydrate, CounterOf, TrimToMax, DeleteExpired, RowsOk, EventId;
    StoreKeepsInv(cfg, s, step.stream, step.message, step.sweepAt, step.storedAt);
    SweepKeepsInv(cfg, s, step.sweepAt);
    NextCounterExceeds(Sweep(cfg, s, step.sweepAt), step.stream);
  }

  ghost predicate FreshIds(s: Store, h: seq<Row>) {
    && (forall i :: 0 <= i < |h| ==> Named(h[i]) && Above(s, h[i]))
    && (forall i, j :: 0 <= i < j < |h| ==> h[i].id != h[j].id)
  }

  lemma FreshIdsGrow(s: Store, row: Row, next: Store, h: seq<Row>)
    requires Named(row) && Above(s, row) && FreshIds(next, h)
    requires next.counters == s.counters[row.stream := CounterOf(row)]
    ensures FreshIds(s, [row] + h)
  {
    hide CounterOf, EventId;
    var all := [row] + h;
    forall i | 0 <= i < |h|
      ensures Above(s, h[i]) && h[i].id != row.id
    {
      assert Named(h[i]) && Above(next, h[i]);
      if h[i].id == row.id {
        EventIdInjective(h[i].stream, CounterOf(h[i]), row.stream, CounterOf(row));
      }
    }
  }

  /** Within one process lifetime an id is issued at most once, evictions and clock notwithstanding. */
  lemma {:induction false} IssuedOnce(cfg: Config, s: Store, steps: seq<Step>)
    requires Inv(s)
    requires forall k :: 0 <= k < |steps| ==> !steps[k].Restart?
    ensures FreshIds(s, Appended(cfg, s, steps))
    decreases |steps|
  {
    hide Inv, Apply, AppendedBy, NewRow, Named;
    if steps != [] {
      var next := Apply(cfg, s, steps[0]);
      var h := Appended(cfg, next, steps[1..]);
      ApplyKeepsInv(cfg, s, steps[0]);
      IssuedOnce(cfg, next, steps[1..]);
      if steps[0].Append? {
        IssuedAbove(cfg, s, steps[0]);
        FreshIdsGrow(s, AppendedBy(cfg, s, steps[0])[0], next, h);
      } else {
        QuietStep(cfg, s, steps[0]);
        assert Appended(cfg, s, steps) == h;
      }
    }
  }

  lemma QuietStep(cfg: Config, s: Store, step: Step)
    requires step.Cleanup?
    ensures AppendedBy(cfg, s, step) == [] && Apply(cfg, s, step).counters == s.counters
  {
  }

  /** A restart continues a stream's numbering, rather than reissuing ids this process has given out,
      exactly when the last event it issued on that stream is still in the table. */
  lemma RestartContinuesIff(s: Store, stream: string)
    requires Inv(s)
    requires stream in s.counters && s.counters[stream] >= 1
    ensures NextCounter(s.(counters := map[]), stream) > s.counters[stream]
            <==> HasId(s.rows, EventId(stream, s.counters[stream]))
  {
    hide Rehydrate, CounterOf, EventId;
    LastIdIsHighest(s.rows, stream);
    CounterOfEventId(stream, s.counters[stream]);
    if HasId(s.rows, EventId(stream, s.counters[stream])) {
      var i :| 0 <= i < |s.rows| && s.rows[i].id == EventId(stream, s.counters[stream]);
      assert Named(s.rows[i]);
      EventIdInjective(s.rows[i].stream, CounterOf(s.rows[i]), stream, s.counters[stream]);
    }
    if Rehydrate(s.rows, stream) >= s.counters[stream] {
      var i :| 0 <= i < |s.rows| && s.rows[i].stream == stream && CounterOf(s.rows[i]) == Rehydrate(s.rows, stream);
      assert Named(s.rows[i]);
    }
  }

  /** The failing family is inhabited: store, let it lapse, restart, store again, and the first id is reissued. */
  lemma RestartCanReissue()
    ensures var steps := [Append("s", "a", 0, 0), Cleanup(10), Restart, Append("s", "b", 10, 10)];
            var h := Appended(Config(5, 1), Store([], map[]), steps);
            |h| == 2 && h[0].message != h[1].message && h[0].id == h[1].id
  {
    var cfg, s0 := Config(5, 1), Store([], map[]);
    var steps := [Append("s", "a", 0, 0), Cleanup(10), Restart, Append("s", "b", 10, 10)];
    var first := NewRow(cfg, s0, "s", "a", 0, 0);
    var s1 := Apply(cfg, s0, steps[0]);
    assert s1 == Store([first], map["s" := 1]);
    var s2 := Apply(cfg, s1, steps[1]);
    assert DeleteExpired([first], 9) == [];
    assert s2 == Store([], map["s" := 1]);
    var s3 := Apply(cfg, s2, steps[2]);
    assert s3 == Store([], map[]);
    var second := NewRow(cfg, s3, "s", "b", 10, 10);
    assert second.id == first.id;
    assert steps[1..][1..][1..] == [steps[3]];
    calc {
      Appended(cfg, s0, steps);
      [first] + Appended(cfg, s1, steps[1..]);
      [first] + ([] + Appended(cfg, s2, steps[1..][1..]));
      [first] + ([] + ([] + Appended(cfg, s3, steps[1..][1..][1..])));
      [first] + ([second] + Appended(cfg, Apply(cfg, s3, steps[3]), []));
      [first, second];
    }
  }

  // ---------------------------------------------------------------- the bounded append log

  ghost predicate TimeSorted(rows: seq<Row>) {
    forall i, j :: 0 <= i < j < |rows| ==> rows[i].createdAt <= rows[j].createdAt
  }

  ghost predicate NoLaterThan(rows: seq<Row>, t: int) {
    forall i :: 0 <= i < |rows| ==> rows[i].createdAt <= t
  }

  /** The abstract log: lapsed entries leave at the front, and only the newest `cap` entries stay. */
  function DropLapsed(log: seq<Row>, cutoff: int): seq<Row> {
    if log != [] && log[0].createdAt <= cutoff then DropLapsed(log[1..], cutoff) else log
  }

  function Newest(log: seq<Row>, cap: nat): seq<Row> {
    if |log| <= cap then log else log[|log| - cap..]
  }

  function Capacity(cfg: Config): nat {
    if cfg.maxEvents < 0 then 0 else cfg.maxEvents
  }

  lemma {:induction false} DropLapsedIsSuffix(log: seq<Row>, cutoff: int)
    ensures |DropLapsed(log, cutoff)| <= |log|
    ensures DropLapsed(log, cutoff) == log[|log| - |DropLapsed(log, cutoff)|..]
  {
    if log != [] && log[0].createdAt <= cutoff {
      DropLapsedIsSuffix(log[1..], cutoff);
    }
  }

  lemma {:induction false} DropLapsedSnoc(log: seq<Row>, last: Row, cutoff: int)
    requires NoLaterThan(log, last.createdAt)
    ensures DropLapsed(log + [last], cutoff)
            == DropLapsed(log, cutoff) + (if last.createdAt <= cutoff then [] else [last])
  {
    if log != [] && log[0].createdAt <= cutoff {
      assert (log + [last])[1..] == log[1..] + [last];
      DropLapsedSnoc(log[1..], last, cutoff);
    }
  }

  lemma {:induction false} DeleteExpiredDropsLapsed(rows: seq<Row>, cutoff: int)
    requires TimeSorted(rows)
    ensures DeleteExpired(rows, cutoff) == DropLapsed(rows, cutoff)
  {
    if rows != [] {
      var n := |rows| - 1;
      assert rows == rows[..n] + [rows[n]];
      DeleteExpiredDropsLapsed(rows[..n], cutoff);
      DropLapsedSnoc(rows[..n], rows[n], cutoff);
    }
  }

  /** Capacity eviction takes the smallest creation time, and the earliest row among equals. */
  lemma {:induction false} OldestIsMinimal(rows: seq<Row>, j: nat)
    requires j < |rows|
    ensures rows[OldestIndex(rows)].createdAt <= rows[j].createdAt
    ensures j < OldestIndex(rows) ==> rows[OldestIndex(rows)].createdAt < rows[j].createdAt
  {
    if |rows| > 1 {
      var n := |rows| - 1;
      OldestIsMinimal(rows[..n], if j < n then j else 0);
    }
  }

  /** The rows that stay after a deletion, by their indices before it: in order, and each younger than every row that goes,
      where rows created at one time age in rowid order. */
  ghost predicate KeepsYoungest(rows: seq<Row>, kept: seq<Row>, at: seq<nat>) {
    && |at| == |kept|
    && (forall k :: 0 <= k < |at| ==> at[k] < |rows| && kept[k] == rows[at[k]])
    && (forall k, l :: 0 <= k < l < |at| ==> at[k] < at[l])
    && (forall i, k :: 0 <= i < |rows| && i !in at && 0 <= k < |at| ==> Older(rows, i, at[k]))
  }

  ghost predicate Older(rows: seq<Row>, i: nat, j: nat)
    requires i < |rows| && j < |rows|
  {
    rows[i].createdAt < rows[j].createdAt || (rows[i].createdAt == rows[j].createdAt && i < j)
  }

  function IndexBefore(gone: nat, i: nat): nat {
    if i < gone then i else i + 1
  }

  /** Indices after the row at `gone` was deleted, as they were before. */
  function IndicesBefore(gone: nat, at: seq<nat>): (r: seq<nat>)
    ensures |r| == |at| && forall k :: 0 <= k < |at| ==> r[k] == IndexBefore(gone, at[k])
  {
    seq(|at|, k requires 0 <= k < |at| => IndexBefore(gone, at[k]))
  }

  function Removed(rows: seq<Row>, gone: nat): (rest: seq<Row>)
    requires gone < |rows|
    ensures |rest| == |rows| - 1 && forall j :: 0 <= j < |rest| ==> rest[j] == rows[IndexBefore(gone, j)]
  {
    rows[..gone] + rows[gone + 1..]
  }

  lemma OldestGoesFirst(rows: seq<Row>, kept: seq<Row>, later: seq<nat>)
    requires rows != [] && KeepsYoungest(Removed(rows, OldestIndex(rows)), kept, later)
    ensures KeepsYoungest(rows, kept, IndicesBefore(OldestIndex(rows), later))
  {
    var gone := OldestIndex(rows);
    var at := IndicesBefore(gone, later);
    hide OldestIndex, Removed, IndicesBefore;
    forall i, k | 0 <= i < |rows| && i !in at && 0 <= k < |at|
      ensures Older(rows, i, at[k])
    {
      if i == gone {
        OldestIsMinimal(rows, at[k]);
      } else {
        var j := if i < gone then i else i - 1;
        assert IndexBefore(gone, j) == i;
        KeptBefore(gone, later, j);
        assert Older(Removed(rows, gone), j, later[k]);
      }
    }
  }

  lemma KeptBefore(gone: nat, later: seq<nat>, j: nat)
    ensures j in later ==> IndexBefore(gone, j) in IndicesBefore(gone, later)
  {
    if j in later {
      var l :| 0 <= l < |later| && later[l] == j;
      assert IndicesBefore(gone, later)[l] == IndexBefore(gone, j);
    }
  }

  lemma {:induction false} OldestGo(rows: seq<Row>, count: nat) returns (at: seq<nat>)
    ensures KeepsYoungest(rows, DeleteOldest(rows, count), at)
  {
    if count == 0 || rows == [] {
      return seq(|rows|, i requires 0 <= i < |rows| => i);
    }
    hide KeepsYoungest, OldestIndex;
    var gone := OldestIndex(rows);
    var later := OldestGo(Removed(rows, gone), count - 1);
    OldestGoesFirst(rows, DeleteOldest(rows, count), later);
    return IndicesBefore(gone, later);
  }

  /** A full table loses exactly as many rows as were asked for, the oldest first, whatever order the clock gave them
      in. */
  lemma DeleteOldestKeepsYoungest(rows: seq<Row>, count: nat)
    ensures var kept := DeleteOldest(rows, count);
            |kept| == (if count < |rows| then |rows| - count else 0) && exists at :: KeepsYoungest(rows, kept, at)
  {
    var at := OldestGo(rows, count);
  }

  lemma {:induction false} OldestIsFirst(rows: seq<Row>)
    requires TimeSorted(rows) && rows != []
    ensures OldestIndex(rows) == 0
  {
    if |rows| > 1 {
      OldestIsFirst(rows[..|rows| - 1]);
    }
  }

  lemma {:induction false} DeleteOldestDropsFront(rows: seq<Row>, count: nat)
    requires TimeSorted(rows) && count <= |rows|
    ensures DeleteOldest(rows, count) == rows[count..]
  {
    if count > 0 {
      OldestIsFirst(rows);
      assert rows[..0] + rows[1..] == rows[1..];
      DeleteOldestDropsFront(rows[1..], count - 1);
    }
  }

  lemma TrimIsNewest(cfg: Config, rows: seq<Row>)
    requires TimeSorted(rows)
    ensures TrimToMax(cfg, rows) == Newest(rows, Capacity(cfg))
  {
    hide DeleteOldest, TimeSorted;
    if 0 <= cfg.maxEvents < |rows| {
      DeleteOldestDropsFront(rows, |rows| - cfg.maxEvents);
    }
  }

  lemma SuffixTimeSorted(rows: seq<Row>, log: seq<Row>)
    requires IsSuffix(rows, log) && TimeSorted(log)
    ensures TimeSorted(rows)
    ensures forall t :: NoLaterThan(log, t) ==> NoLaterThan(rows, t)
  {
  }

  /** While the clock does not run backwards, a store call is exactly an append to the bounded log. */
  lemma StoreIsBoundedAppend(cfg: Config, s: Store, stream: string, message: string, sweepAt: int, storedAt: int)
    requires Inv(s) && TimeSorted(s.rows) && NoLaterThan(s.rows, storedAt)
    ensures var row := NewRow(cfg, s, stream, message, sweepAt, storedAt);
            var after := StoreEvent(cfg, s, stream, message, sweepAt, storedAt);
            && stream in after.0.counters
            && after.1 == Some(row.id) && row.id == EventId(stream, after.0.counters[stream])
            && row.stream == stream && row.message == message && row.createdAt == storedAt
            && after.0.rows == Newest(DropLapsed(s.rows, sweepAt - cfg.ttlMs) + [row], Capacity(cfg))
  {
    hide Rehydrate, CounterOf, RowsOk, DropLapsed, DeleteExpired, OldestIndex, DeleteOldest, EventId, LastId;
    StoreKeepsInv(cfg, s, stream, message, sweepAt, storedAt);
    var row := NewRow(cfg, s, stream, message, sweepAt, storedAt);
    var kept := DropLapsed(s.rows, sweepAt - cfg.ttlMs);
    DeleteExpiredDropsLapsed(s.rows, sweepAt - cfg.ttlMs);
    DropLapsedIsSuffix(s.rows, sweepAt - cfg.ttlMs);
    SuffixTimeSorted(kept, s.rows);
    TrimIsNewest(cfg, kept + [row]);
  }

  /** Each step reads the clock no earlier than the one before it. */
  ghost predicate Clocked(steps: seq<Step>, t: int) {
    steps != [] ==>
      match steps[0]
      case Append(_, _, sweepAt, storedAt) => t <= sweepAt <= storedAt && Clocked(steps[1..], storedAt)
      case Cleanup(now) => t <= now && Clocked(steps[1..], now)
      case Restart => Clocked(steps[1..], t)
  }

  ghost predicate IsSuffix(rows: seq<Row>, log: seq<Row>) {
    |rows| <= |log| && rows == log[|log| - |rows|..]
  }

  lemma SuffixTrans(a: seq<Row>, b: seq<Row>, c: seq<Row>)
    requires IsSuffix(a, b) && IsSuffix(b, c)
    ensures IsSuffix(a, c)
  {
  }

  lemma SuffixExtend(a: seq<Row>, b: seq<Row>, tail: seq<Row>)
    requires IsSuffix(a, b)
    ensures IsSuffix(a + tail, b + tail)
  {
  }

  /** The clock after a step that starts no earlier than t. */
  function ClockAfter(step: Step, t: int): int {
    match step
    case Append(_, _, _, storedAt) => storedAt
    case Cleanup(now) => now
    case Restart => t
  }

  /** One step leaves a suffix of what was live plus what it appended, and keeps the time order. */
  lemma StepKeepsLog(cfg: Config, s: Store, step: Step, t: int)
    requires Inv(s) && TimeSorted(s.rows) && NoLaterThan(s.rows, t) && Clocked([step], t)
    ensures TimeSorted(Apply(cfg, s, step).rows) && NoLaterThan(Apply(cfg, s, step).rows, ClockAfter(step, t))
    ensures IsSuffix(Apply(cfg, s, step).rows, s.rows + AppendedBy(cfg, s, step))
    ensures step.Append? || |s.rows| <= Capacity(cfg) ==> |Apply(cfg, s, step).rows| <= Capacity(cfg)
  {
    hide Rehydrate, CounterOf, TrimToMax, DeleteExpired, Inv, EventId;
    assert [step][1..] == [];
    match step
    case Append(stream, message, sweepAt, storedAt) =>
      StoreIsBoundedAppend(cfg, s, stream, message, sweepAt, storedAt);
      DropLapsedIsSuffix(s.rows, sweepAt - cfg.ttlMs);
      var row := NewRow(cfg, s, stream, message, sweepAt, storedAt);
      assert AppendedBy(cfg, s, step) == [row];
      BoundedAppendIsSuffix(s.rows, DropLapsed(s.rows, sweepAt - cfg.ttlMs), row, Capacity(cfg));
    case Cleanup(now) =>
      DeleteExpiredDropsLapsed(s.rows, now - cfg.ttlMs);
      DropLapsedIsSuffix(s.rows, now - cfg.ttlMs);
      assert AppendedBy(cfg, s, step) == [] && s.rows + [] == s.rows;
      SuffixTimeSorted(DropLapsed(s.rows, now - cfg.ttlMs), s.rows);
    case Restart =>
      assert AppendedBy(cfg, s, step) == [] && s.rows + [] == s.rows;
  }

  lemma BoundedAppendIsSuffix(rows: seq<Row>, kept: seq<Row>, row: Row, cap: nat)
    requires IsSuffix(kept, rows) && TimeSorted(rows) && NoLaterThan(rows, row.createdAt)
    ensures IsSuffix(Newest(kept + [row], cap), rows + [row])
    ensures TimeSorted(Newest(kept + [row], cap)) && NoLaterThan(Newest(kept + [row], cap), row.createdAt)
  {
    SuffixExtend(kept, rows, [row]);
    SuffixTrans(Newest(kept + [row], cap), kept + [row], rows + [row]);
    SuffixTimeSorted(Newest(kept + [row], cap), rows + [row]);
  }

  /** Under a non-decreasing clock the live rows after any run are a suffix of everything appended,
      within capacity as soon as one event has been stored. */
  lemma {:induction false} RunIsBoundedLog(cfg: Config, s: Store, steps: seq<Step>, t: int)
    requires Inv(s) && TimeSorted(s.rows) && NoLaterThan(s.rows, t) && Clocked(steps, t)
    ensures var rows := Run(cfg, s, steps).rows;
            && IsSuffix(rows, s.rows + Appended(cfg, s, steps))
            && TimeSorted(rows)
            && Keyed(rows)
            && (|s.rows| <= Capacity(cfg) || (exists k :: 0 <= k < |steps| && steps[k].Append?)
                ==> |rows| <= Capacity(cfg))
    decreases |steps|
  {
    hide Inv, Apply, AppendedBy;
    if steps == [] {
      assert s.rows + [] == s.rows;
      InvIsKeyed(s);
    } else {
      var next := Apply(cfg, s, steps[0]);
      assert [steps[0]][1..] == [];
      StepKeepsLog(cfg, s, steps[0], t);
      ApplyKeepsInv(cfg, s, steps[0]);
      RunIsBoundedLog(cfg, next, steps[1..], ClockAfter(steps[0], t));
      var first, later := AppendedBy(cfg, s, steps[0]), Appended(cfg, next, steps[1..]);
      SuffixExtend(next.rows, s.rows + first, later);
      assert (s.rows + first) + later == s.rows + (first + later);
      SuffixTrans(Run(cfg, s, steps).rows, next.rows + later, s.rows + Appended(cfg, s, steps));
    }
  }

  // ---------------------------------------------------------------- replay

  /** The events of one stream in a stretch of the log that have not lapsed: what replay promises. */
  function StreamEvents(log: seq<Row>, stream: string, cutoff: int): seq<Event> {
    if log == [] then []
    else (if log[0].stream == stream && log[0].createdAt > cutoff then [Event(log[0].id, log[0].message)] else [])
         + StreamEvents(log[1..], stream, cutoff)
  }

  lemma {:induction false} SelectAfterEarlier(rows: seq<Row>, stream: string, rowid: nat, cutoff: int)
    requires forall i :: 0 <= i < |rows| ==> rows[i].rowid > rowid
    ensures Sent(SelectAfter(rows, stream, rowid, cutoff)) == StreamEvents(rows, stream, cutoff)
  {
    if rows != [] {
      assert rows[0].rowid > rowid;
      var tail := SelectAfter(rows[1..], stream, rowid, cutoff);
      assert ([rows[0]] + tail)[1..] == tail && [] + tail == tail;
      SelectAfterEarlier(rows[1..], stream, rowid, cutoff);
    }
  }

  lemma {:induction false} SelectAfterSkips(rows: seq<Row>, k: nat, stream: string, cutoff: int)
    requires k < |rows| && Keyed(rows)
    ensures SelectAfter(rows, stream, rows[k].rowid, cutoff) == SelectAfter(rows[k + 1..], stream, rows[k].rowid, cutoff)
  {
    if k > 0 {
      assert rows[0].rowid < rows[k].rowid;
      assert Keyed(rows[1..]);
      SelectAfterSkips(rows[1..], k - 1, stream, cutoff);
      assert rows[1..][k..] == rows[k + 1..];
    }
  }

  lemma {:induction false} RowOfLive(rows: seq<Row>, k: nat)
    requires k < |rows| && Keyed(rows)
    ensures RowOf(rows, rows[k].id) == Some(rows[k])
  {
    if rows[0].id == rows[k].id {
      assert k == 0;
    } else {
      assert Keyed(rows[1..]);
      RowOfLive(rows[1..], k - 1);
    }
  }

  lemma ReplayFromLive(cfg: Config, rows: seq<Row>, k: nat, now: int)
    requires Keyed(rows) && k < |rows|
    ensures Replay(cfg, rows, rows[k].id, now)
            == (rows[k].stream, StreamEvents(rows[k + 1..], rows[k].stream, now - cfg.ttlMs))
  {
    RowOfLive(rows, k);
    SelectAfterSkips(rows, k, rows[k].stream, now - cfg.ttlMs);
    var later := rows[k + 1..];
    assert forall i :: 0 <= i < |later| ==> later[i] == rows[k + 1 + i];
    SelectAfterEarlier(later, rows[k].stream, rows[k].rowid, now - cfg.ttlMs);
  }

  /** After any run under a non-decreasing clock, resuming from a live event sends every event of its
      stream appended since, in append order and once each, save those that have lapsed:
      evictions never open a gap after a live event. */
  lemma ReplayMatchesHistory(cfg: Config, s: Store, steps: seq<Step>, t: int, k: nat, now: int)
    requires Inv(s) && TimeSorted(s.rows) && NoLaterThan(s.rows, t) && Clocked(steps, t)
    requires var log := s.rows + Appended(cfg, s, steps);
             |log| - |Run(cfg, s, steps).rows| <= k < |log|
    ensures var log := s.rows + Appended(cfg, s, steps);
            Replay(cfg, Run(cfg, s, steps).rows, log[k].id, now)
            == (log[k].stream, StreamEvents(log[k + 1..], log[k].stream, now - cfg.ttlMs))
  {
    hide Apply, AppendedBy, Named, Clocked, Inv;
    RunIsBoundedLog(cfg, s, steps, t);
    var log, rows := s.rows + Appended(cfg, s, steps), Run(cfg, s, steps).rows;
    var live := k - (|log| - |rows|);
    assert rows[live] == log[k];
    assert rows[live + 1..] == log[k + 1..];
    ReplayFromLive(cfg, rows, live, now);
  }

  /** An event that has left the table is not resumed from: in one lifetime of a new store, the reply
      to any id outside the live suffix is the default stream and nothing is sent. */
  lemma ReplayFromEvicted(cfg: Config, steps: seq<Step>, t: int, k: nat, now: int)
    requires Clocked(steps, t)
    requires forall i :: 0 <= i < |steps| ==> !steps[i].Restart?
    requires var s := Store([], map[]); k < |Appended(cfg, s, steps)| - |Run(cfg, s, steps).rows|
    ensures var s := Store([], map[]);
            Replay(cfg, Run(cfg, s, steps).rows, Appended(cfg, s, steps)[k].id, now) == (DEFAULT_STREAM, [])
  {
    hide Apply, AppendedBy, Named, Above, Clocked;
    var s := Store([], map[]);
    var log, rows := Appended(cfg, s, steps), Run(cfg, s, steps).rows;
    assert s.rows + log == log;
    RunIsBoundedLog(cfg, s, steps, t);
    IssuedOnce(cfg, s, steps);
    forall i | 0 <= i < |rows|
      ensures rows[i].id != log[k].id
    {
      assert rows[i] == log[|log| - |rows| + i];
    }
  }

  /** The row an event of a stream came from, with the rest of the stream after it. */
  lemma {:induction false} EventPosition(log: seq<Row>, stream: string, cutoff: int, p: nat) returns (m: nat)
    requires p < |StreamEvents(log, stream, cutoff)|
    ensures m < |log| && log[m].stream == stream && log[m].id == StreamEvents(log, stream, cutoff)[p].id
    ensures StreamEvents(log[m + 1..], stream, cutoff) == StreamEvents(log, stream, cutoff)[p + 1..]
  {
    var later := StreamEvents(log[1..], stream, cutoff);
    if log[0].stream == stream && log[0].createdAt > cutoff {
      var first := Event(log[0].id, log[0].message);
      assert StreamEvents(log, stream, cutoff) == [first] + later;
      if p == 0 {
        return 0;
      }
      m := EventPosition(log[1..], stream, cutoff, p - 1);
      assert ([first] + later)[p + 1..] == later[p..];
    } else {
      assert StreamEvents(log, stream, cutoff) == later;
      m := EventPosition(log[1..], stream, cutoff, p);
    }
    assert log[1..][m + 1..] == log[m + 2..];
    m := m + 1;
  }

  lemma ResumeAt(cfg: Config, rows: seq<Row>, k: nat, now: int, p: nat)
    requires Keyed(rows) && k < |rows| && p < |Replay(cfg, rows, rows[k].id, now).1|
    ensures var (stream, sent) := Replay(cfg, rows, rows[k].id, now);
            Replay(cfg, rows, sent[p].id, now) == (stream, sent[p + 1..])
  {
    hide Keyed, StreamEvents, Replay, Sent, SelectAfter, RowOf;
    ReplayFromLive(cfg, rows, k, now);
    var later := rows[k + 1..];
    var m := EventPosition(later, rows[k].stream, now - cfg.ttlMs, p);
    ReplayFromLive(cfg, rows, k + 1 + m, now);
    assert rows[k + 1 + m] == later[m];
    assert rows[k + 1 + m + 1..] == later[m + 1..];
  }

  /** Resuming from any event a replay sent gives exactly the rest of that replay: no gap, no repeat. */
  lemma ResumeFromSent(cfg: Config, rows: seq<Row>, id: string, now: int, p: nat)
    requires RowsOk(rows) && p < |Replay(cfg, rows, id, now).1|
    ensures var (stream, sent) := Replay(cfg, rows, id, now);
            Replay(cfg, rows, sent[p].id, now) == (stream, sent[p + 1..])
  {
    RowsOkIsKeyed(rows);
    var row := RowOf(rows, id).value;
    var k :| 0 <= k < |rows| && rows[k] == row;
    hide *;
    ResumeAt(cfg, rows, k, now, p);
  }
}
