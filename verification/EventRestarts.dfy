/** Event ids over runs with restarts: exactly when no id is ever given twice. */
module EventRestarts {
  import opened Wrappers
  import opened EventStore
  import opened EventLog

  ghost predicate DistinctIds(h: seq<Row>) {
    forall i, j :: 0 <= i < j < |h| ==> h[i].id != h[j].id
  }

  /** The guard on a store call, h being every row appended so far: the process already knows the stream's counter, or
      nothing was ever appended to the stream, or its last appended row is still in the table once that is swept. */
  predicate Continues(cfg: Config, s: Store, h: seq<Row>, step: Step) {
    step.Append? ==>
      || step.stream in s.counters
      || LastId(h, step.stream).None?
      || HasId(Sweep(cfg, s, step.sweepAt).rows, LastId(h, step.stream).value)
  }

  ghost predicate AlwaysContinues(cfg: Config, s: Store, h: seq<Row>, steps: seq<Step>)
    decreases |steps|
  {
    steps != [] ==>
      && Continues(cfg, s, h, steps[0])
      && AlwaysContinues(cfg, Apply(cfg, s, steps[0]), h + AppendedBy(cfg, s, steps[0]), steps[1..])
  }

  /** What holds until an id is given twice: the numbers given out on a stream are 1 to the last one, the table holds
      some of the rows appended, and the process remembers last numbers. */
  ghost predicate Numbered(s: Store, h: seq<Row>) {
    && Inv(s) && DistinctIds(h)
    && (forall i :: 0 <= i < |h| ==> Named(h[i]) && CounterOf(h[i]) <= Rehydrate(h, h[i].stream))
    && (forall stream, n :: 1 <= n <= Rehydrate(h, stream) ==> HasId(h, EventId(stream, n)))
    && (forall i :: 0 <= i < |s.rows| ==> HasId(h, s.rows[i].id))
    && (forall k :: k in s.counters ==> s.counters[k] == Rehydrate(h, k))
  }

  lemma RowIsNumbered(s: Store, h: seq<Row>, i: nat)
    requires Numbered(s, h) && i < |s.rows|
    ensures CounterOf(s.rows[i]) <= Rehydrate(h, s.rows[i].stream)
  {
    assert Named(s.rows[i]) && HasId(h, s.rows[i].id);
    var j :| 0 <= j < |h| && h[j].id == s.rows[i].id;
    assert Named(h[j]);
    EventIdInjective(h[j].stream, CounterOf(h[j]), s.rows[i].stream, CounterOf(s.rows[i]));
  }

  /** The last id appended to a stream names its last number. */
  lemma LastIdIsLast(h: seq<Row>, stream: string)
    requires forall i :: 0 <= i < |h| ==> Named(h[i])
    ensures LastId(h, stream).None? ==> Rehydrate(h, stream) == 0
    ensures LastId(h, stream).Some? ==>
              Rehydrate(h, stream) >= 1 && LastId(h, stream).value == EventId(stream, Rehydrate(h, stream))
    decreases |h|
  {
    hide EventId;
    if h != [] {
      var n := |h| - 1;
      if h[n].stream == stream {
        assert Named(h[n]);
        RehydrateLast(h, stream);
      } else {
        forall i | 0 <= i < n
          ensures Named(h[..n][i])
        {
          assert h[..n][i] == h[i];
        }
        LastIdIsLast(h[..n], stream);
      }
    }
  }

  lemma SweptIsNumbered(cfg: Config, s: Store, h: seq<Row>, now: int)
    requires Numbered(s, h)
    ensures Numbered(Sweep(cfg, s, now), h)
  {
    hide Inv, Named, CounterOf, Rehydrate, EventId, DistinctIds, HasId, DeleteExpired;
    var swept := Sweep(cfg, s, now);
    SweepKeepsInv(cfg, s, now);
    forall i | 0 <= i < |swept.rows|
      ensures HasId(h, swept.rows[i].id)
    {
      DeleteExpiredKeeps(s.rows, now - cfg.ttlMs, swept.rows[i]);
      var j :| 0 <= j < |s.rows| && s.rows[j] == swept.rows[i];
    }
  }

  /** The next number follows the last one given out exactly under the guard; otherwise it is not above it. */
  lemma NextFollowsIff(cfg: Config, s: Store, h: seq<Row>, step: Step)
    requires Numbered(s, h) && step.Append?
    ensures var next, last := NextCounter(Sweep(cfg, s, step.sweepAt), step.stream), Rehydrate(h, step.stream);
            && 1 <= next <= last + 1
            && (next == last + 1 <==> Continues(cfg, s, h, step))
  {
    var stream := step.stream;
    var swept := Sweep(cfg, s, step.sweepAt);
    SweptIsNumbered(cfg, s, h, step.sweepAt);
    LastIdIsLast(h, stream);
    LastIdIsHighest(swept.rows, stream);
    hide CounterOf, Rehydrate, EventId, LastId, DeleteExpired;
    var last, found := Rehydrate(h, stream), Rehydrate(swept.rows, stream);
    if stream !in s.counters {
      if found > 0 {
        var i :| 0 <= i < |swept.rows| && swept.rows[i].stream == stream && CounterOf(swept.rows[i]) == found;
        RowIsNumbered(swept, h, i);
        assert Named(swept.rows[i]);
        assert found == last ==> swept.rows[i].id == EventId(stream, last);
      }
      if last > 0 && HasId(swept.rows, EventId(stream, last)) {
        var i :| 0 <= i < |swept.rows| && swept.rows[i].id == EventId(stream, last);
        assert Named(swept.rows[i]);
        EventIdInjective(swept.rows[i].stream, CounterOf(swept.rows[i]), stream, last);
      }
    }
  }

  lemma HasIdGrows(h: seq<Row>, row: Row, id: string)
    ensures HasId(h + [row], id) <==> HasId(h, id) || row.id == id
  {
    var all := h + [row];
    if HasId(h, id) {
      var i :| 0 <= i < |h| && h[i].id == id;
      assert all[i].id == id;
    }
    assert all[|h|] == row;
    if HasId(all, id) {
      var i :| 0 <= i < |all| && all[i].id == id;
      assert i < |h| ==> h[i].id == id;
    }
  }

  lemma RehydrateGrows(h: seq<Row>, row: Row, stream: string)
    ensures Rehydrate(h + [row], stream) == if row.stream == stream then CounterOf(row) else Rehydrate(h, stream)
  {
    RehydrateLast(h + [row], stream);
    assert (h + [row])[..|h|] == h;
  }

  /** One more row, numbered after the last one of its stream. */
  lemma HistoryGrows(s: Store, h: seq<Row>, row: Row)
    requires Numbered(s, h) && Named(row) && CounterOf(row) == Rehydrate(h, row.stream) + 1
    ensures var all := h + [row];
            && DistinctIds(all)
            && (forall i :: 0 <= i < |all| ==> Named(all[i]) && CounterOf(all[i]) <= Rehydrate(all, all[i].stream))
            && (forall stream, n :: 1 <= n <= Rehydrate(all, stream) ==> HasId(all, EventId(stream, n)))
  {
    var all := h + [row];
    hide Inv, CounterOf, Rehydrate, EventId, HasId;
    forall i | 0 <= i < |h|
      ensures h[i].id != row.id && Named(all[i]) && CounterOf(all[i]) <= Rehydrate(all, all[i].stream)
    {
      RehydrateGrows(h, row, h[i].stream);
      assert Named(h[i]);
      if h[i].id == row.id {
        EventIdInjective(h[i].stream, CounterOf(h[i]), row.stream, CounterOf(row));
      }
    }
    RehydrateGrows(h, row, row.stream);
    hide Named;
    forall stream, n | 1 <= n <= Rehydrate(all, stream)
      ensures HasId(all, EventId(stream, n))
    {
      RehydrateGrows(h, row, stream);
      HasIdGrows(h, row, EventId(stream, n));
      assert Named(row);
    }
  }

  /** The row a store call adds, and the counter it leaves. */
  lemma AppendFacts(cfg: Config, s: Store, step: Step)
    requires Inv(s) && step.Append?
    ensures var row := NewRow(cfg, s, step.stream, step.message, step.sweepAt, step.storedAt);
            var next := NextCounter(Sweep(cfg, s, step.sweepAt), step.stream);
            && AppendedBy(cfg, s, step) == [row] && Inv(Apply(cfg, s, step))
            && Named(row) && row.stream == step.stream && row.id == EventId(step.stream, next) && CounterOf(row) == next
            && Apply(cfg, s, step).counters == s.counters[row.stream := next]
  {
    hide NextCounter, Rehydrate, CounterOf, EventId, HasId, DeleteExpired, TrimToMax, Inv, Named, Sweep;
    IssuedAbove(cfg, s, step);
    StoreKeepsInv(cfg, s, step.stream, step.message, step.sweepAt, step.storedAt);
  }

  /** A store call under the guard goes on numbering; without it, it repeats an id. */
  lemma AppendNumbered(cfg: Config, s: Store, h: seq<Row>, step: Step)
    requires Numbered(s, h) && step.Append?
    ensures AppendedBy(cfg, s, step) != []
    ensures var row := AppendedBy(cfg, s, step)[0];
            && AppendedBy(cfg, s, step) == [row]
            && (Continues(cfg, s, h, step) ==> Numbered(Apply(cfg, s, step), h + [row]))
            && (!Continues(cfg, s, h, step) ==> HasId(h, row.id))
  {
    hide NextCounter, Rehydrate, CounterOf, EventId, HasId, DeleteExpired, TrimToMax, Inv, Named, Sweep, DistinctIds;
    hide NewRow, Apply, AppendedBy, Continues;
    AppendFacts(cfg, s, step);
    NextFollowsIff(cfg, s, h, step);
    var row, next := AppendedBy(cfg, s, step)[0], Apply(cfg, s, step);
    if Continues(cfg, s, h, step) {
      HistoryGrows(s, h, row);
      StoredRowsAreAppended(cfg, s, h, step);
      forall k | k in next.counters
        ensures next.counters[k] == Rehydrate(h + [row], k)
      {
        RehydrateGrows(h, row, k);
      }
    }
  }

  lemma StoredRow(cfg: Config, s: Store, step: Step, r: Row)
    requires Inv(s) && step.Append? && r in Apply(cfg, s, step).rows
    ensures r in s.rows || r == NewRow(cfg, s, step.stream, step.message, step.sweepAt, step.storedAt)
  {
    var row := NewRow(cfg, s, step.stream, step.message, step.sweepAt, step.storedAt);
    var swept := Sweep(cfg, s, step.sweepAt);
    SweepKeepsInv(cfg, s, step.sweepAt);
    NewRowFits(swept, row);
    hide HasId, EventId, TrimToMax, DeleteExpired, CounterOf, Rehydrate, Named, RowsOk, NewRow, NextCounter;
    TrimKeepsOrder(cfg, swept.rows + [row]);
    DeleteExpiredKeeps(s.rows, step.sweepAt - cfg.ttlMs, r);
  }

  /** After a store call the table still holds only appended rows. */
  lemma StoredRowsAreAppended(cfg: Config, s: Store, h: seq<Row>, step: Step)
    requires Inv(s) && step.Append? && forall i :: 0 <= i < |s.rows| ==> HasId(h, s.rows[i].id)
    ensures var row := NewRow(cfg, s, step.stream, step.message, step.sweepAt, step.storedAt);
            var next := Apply(cfg, s, step);
            forall i :: 0 <= i < |next.rows| ==> HasId(h + [row], next.rows[i].id)
  {
    hide HasId, Inv, Apply, NewRow;
    var row := NewRow(cfg, s, step.stream, step.message, step.sweepAt, step.storedAt);
    var next := Apply(cfg, s, step);
    forall i | 0 <= i < |next.rows|
      ensures HasId(h + [row], next.rows[i].id)
    {
      StoredRow(cfg, s, step, next.rows[i]);
      HasIdGrows(h, row, next.rows[i].id);
      if next.rows[i] != row {
        var j :| 0 <= j < |s.rows| && s.rows[j] == next.rows[i];
      }
    }
  }

  lemma OtherStepsNumbered(cfg: Config, s: Store, h: seq<Row>, step: Step)
    requires Numbered(s, h) && !step.Append?
    ensures AppendedBy(cfg, s, step) == [] && Numbered(Apply(cfg, s, step), h) && Continues(cfg, s, h, step)
  {
    if step.Cleanup? {
      SweptIsNumbered(cfg, s, h, step.now);
    }
    hide Rehydrate, CounterOf, EventId, HasId, DistinctIds, Named;
  }

  /** Over any run of stores, evictions and restarts, under any clock, no id is given twice if and only if every store
      call that a process makes for the first time on a stream finds the stream's last appended row still there. */
  lemma {:induction false} NeverReissuedIff(cfg: Config, s: Store, h: seq<Row>, steps: seq<Step>)
    requires Numbered(s, h)
    ensures DistinctIds(h + Appended(cfg, s, steps)) <==> AlwaysContinues(cfg, s, h, steps)
    decreases |steps|
  {
    hide Numbered, Apply, AppendedBy, Continues, NewRow, HasId;
    if steps == [] {
      assert h + [] == h;
      assert DistinctIds(h) by {
        NumberedIsDistinct(s, h);
      }
    } else {
      var step := steps[0];
      var next, added := Apply(cfg, s, step), AppendedBy(cfg, s, step);
      var rest := Appended(cfg, next, steps[1..]);
      assert h + (added + rest) == (h + added) + rest;
      hide DistinctIds;
      if step.Append? {
        AppendNumbered(cfg, s, h, step);
        if Continues(cfg, s, h, step) {
          NeverReissuedIff(cfg, next, h + added, steps[1..]);
        } else {
          RepeatedIsNotDistinct(h, added[0], rest);
        }
      } else {
        OtherStepsNumbered(cfg, s, h, step);
        assert h + added == h;
        NeverReissuedIff(cfg, next, h, steps[1..]);
      }
    }
  }

  lemma NumberedIsDistinct(s: Store, h: seq<Row>)
    requires Numbered(s, h)
    ensures DistinctIds(h)
  {
  }

  lemma RepeatedIsNotDistinct(h: seq<Row>, row: Row, rest: seq<Row>)
    requires HasId(h, row.id)
    ensures !DistinctIds(h + ([row] + rest))
  {
    var i :| 0 <= i < |h| && h[i].id == row.id;
    var all := h + ([row] + rest);
    assert all[i].id == all[|h|].id;
  }

  /** In particular from a new store on. */
  lemma NewStoreReissues(cfg: Config, steps: seq<Step>)
    ensures DistinctIds(Appended(cfg, Store([], map[]), steps)) <==> AlwaysContinues(cfg, Store([], map[]), [], steps)
  {
    assert Numbered(Store([], map[]), []);
    NeverReissuedIff(cfg, Store([], map[]), [], steps);
    assert [] + Appended(cfg, Store([], map[]), steps) == Appended(cfg, Store([], map[]), steps);
  }

  /** An event that has left the table is not resumed from, over runs with restarts too, as long as no id was given
      twice: the reply is the default stream and nothing. */
  lemma ReplayFromEvictedAfterRestarts(cfg: Config, steps: seq<Step>, t: int, k: nat, now: int)
    requires Clocked(steps, t) && AlwaysContinues(cfg, Store([], map[]), [], steps)
    requires var s := Store([], map[]); k < |Appended(cfg, s, steps)| - |Run(cfg, s, steps).rows|
    ensures var s := Store([], map[]);
            Replay(cfg, Run(cfg, s, steps).rows, Appended(cfg, s, steps)[k].id, now) == (DEFAULT_STREAM, [])
  {
    hide Run, Appended, Clocked, AlwaysContinues, Keyed;
    var s := Store([], map[]);
    var h, rows := Appended(cfg, s, steps), Run(cfg, s, steps).rows;
    RunIsBoundedLog(cfg, s, steps, t);
    NewStoreReissues(cfg, steps);
    assert [] + h == h;
    forall i | 0 <= i < |rows|
      ensures rows[i].id != h[k].id
    {
      assert rows[i] == h[|h| - |rows| + i];
    }
  }
}
