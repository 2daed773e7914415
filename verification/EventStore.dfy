/** The SSE event store: a table of events, per-stream counters, two evictions, and replay. */
module EventStore {
  import opened Wrappers
  import opened JsText

  /** One row of `events`. The message is kept as its JSON text. */
  datatype Row = Row(rowid: nat, id: string, stream: string, message: string, createdAt: int)

  datatype Config = Config(maxEvents: int, ttlMs: int)

  /** The table in rowid order, and the counters this process has seen. */
  datatype Store = Store(rows: seq<Row>, counters: map<string, int>)

  datatype Event = Event(id: string, message: string)

  const DEFAULT_STREAM := "default-stream"

  // ---------------------------------------------------------------- SQL

  function EventId(stream: string, counter: int): string {
    stream + ":" + IntText(counter)
  }

  predicate HasId(rows: seq<Row>, id: string) {
    exists i :: 0 <= i < |rows| && rows[i].id == id
  }

  /** SQLite gives a new row one more than the largest rowid in the table. */
  function NextRowid(rows: seq<Row>): nat {
    if rows == [] then 1 else rows[|rows| - 1].rowid + 1
  }

  /** DELETE FROM events WHERE created_at <= cutoff */
  function DeleteExpired(rows: seq<Row>, cutoff: int): (kept: seq<Row>)
    ensures |kept| <= |rows|
  {
    if rows == [] then []
    else
      var last := rows[|rows| - 1];
      DeleteExpired(rows[..|rows| - 1], cutoff) + (if last.createdAt <= cutoff then [] else [last])
  }

  /** The first row in the order of the index on created_at, whose ties are in rowid order. */
  function OldestIndex(rows: seq<Row>): (i: nat)
    requires rows != []
    ensures i < |rows|
  {
    if |rows| == 1 then 0
    else
      var i := OldestIndex(rows[..|rows| - 1]);
      if rows[|rows| - 1].createdAt < rows[i].createdAt then |rows| - 1 else i
  }

  /** DELETE ... WHERE id IN (SELECT id FROM events ORDER BY created_at ASC LIMIT count) */
  function DeleteOldest(rows: seq<Row>, count: nat): (kept: seq<Row>)
    ensures |kept| == if count < |rows| then |rows| - count else 0
  {
    if count == 0 || rows == [] then rows
    else
      var i := OldestIndex(rows);
      DeleteOldest(rows[..i] + rows[i + 1..], count - 1)
  }

  /** SELECT id FROM events WHERE stream_id = ? ORDER BY rowid DESC LIMIT 1 */
  function LastId(rows: seq<Row>, stream: string): Option<string> {
    if rows == [] then None
    else if rows[|rows| - 1].stream == stream then Some(rows[|rows| - 1].id)
    else LastId(rows[..|rows| - 1], stream)
  }

  /** The row an id names, as `SELECT ... WHERE id = ?` finds it. */
  function RowOf(rows: seq<Row>, id: string): (r: Option<Row>)
    ensures r.Some? <==> HasId(rows, id)
    ensures r.Some? ==> r.value in rows && r.value.id == id
  {
    if rows == [] then None
    else if rows[0].id == id then Some(rows[0])
    else
      assert forall i :: 1 <= i < |rows| ==> rows[i] == rows[1..][i - 1];
      RowOf(rows[1..], id)
  }

  /** SELECT ... WHERE stream_id = ? AND rowid > ? AND created_at > ? ORDER BY rowid ASC */
  function SelectAfter(rows: seq<Row>, stream: string, rowid: nat, cutoff: int): seq<Row> {
    if rows == [] then []
    else (if rows[0].stream == stream && rows[0].rowid > rowid && rows[0].createdAt > cutoff
          then [rows[0]] else [])
         + SelectAfter(rows[1..], stream, rowid, cutoff)
  }

  function Sent(rows: seq<Row>): (sent: seq<Event>)
    ensures |sent| == |rows|
  {
    if rows == [] then [] else [Event(rows[0].id, rows[0].message)] + Sent(rows[1..])
  }

  lemma {:induction false} SentAt(rows: seq<Row>, i: nat)
    requires i < |rows|
    ensures Sent(rows)[i] == Event(rows[i].id, rows[i].message)
  {
    if i > 0 {
      SentAt(rows[1..], i - 1);
    }
  }

  // ---------------------------------------------------------------- operations on the state

  function Rehydrate(rows: seq<Row>, stream: string): int {
    match LastId(rows, stream)
    case None => 0
    case Some(id) =>
      match ParseInt(AfterLastColon(id))
      case None => 0
      case Some(n) => n
  }

  function NextCounter(s: Store, stream: string): int {
    (if stream in s.counters then s.counters[stream] else Rehydrate(s.rows, stream)) + 1
  }

  function Sweep(cfg: Config, s: Store, now: int): Store {
    s.(rows := DeleteExpired(s.rows, now - cfg.ttlMs))
  }

  function TrimToMax(cfg: Config, rows: seq<Row>): (kept: seq<Row>)
    ensures |kept| <= |rows|
    ensures |kept| <= if cfg.maxEvents < 0 then 0 else cfg.maxEvents
  {
    if |rows| > cfg.maxEvents then DeleteOldest(rows, |rows| - cfg.maxEvents) else rows
  }

  /** The new row a store call inserts, with the two clock values it reads. */
  function NewRow(cfg: Config, s: Store, stream: string, message: string, sweepAt: int, storedAt: int): Row {
    var swept := Sweep(cfg, s, sweepAt);
    Row(NextRowid(swept.rows), EventId(stream, NextCounter(swept, stream)), stream, message, storedAt)
  }

  /** `storeEvent`; None is the exception of an INSERT that violates the primary key. */
  function StoreEvent(cfg: Config, s: Store, stream: string, message: string, sweepAt: int, storedAt: int)
    : (Store, Option<string>)
  {
    var swept := Sweep(cfg, s, sweepAt);
    var counter := NextCounter(swept, stream);
    var counters := s.counters[stream := counter];
    var row := NewRow(cfg, s, stream, message, sweepAt, storedAt);
    if HasId(swept.rows, row.id) then (Store(swept.rows, counters), None)
    else (Store(TrimToMax(cfg, swept.rows + [row]), counters), Some(row.id))
  }

  /** `replayEventsAfter`: the stream it answers with and the events it sends. */
  function Replay(cfg: Config, rows: seq<Row>, lastEventId: string, now: int): (string, seq<Event>) {
    match RowOf(rows, lastEventId)
    case None => (DEFAULT_STREAM, [])
    case Some(row) => (row.stream, Sent(SelectAfter(rows, row.stream, row.rowid, now - cfg.ttlMs)))
  }

  // ---------------------------------------------------------------- the store object

  class SqliteEventStore {
    const cfg: Config
    var counters: map<string, int>
    var events: seq<Row>

    ghost function State(): Store
      reads this
    {
      Store(events, counters)
    }

    /** Opens the store over the rows a previous process left in the file. */
    constructor (cfg: Config, file: seq<Row>)
      ensures this.cfg == cfg && State() == Store(file, map[])
    {
      this.cfg := cfg;
      counters := map[];
      events := file;
    }

    method EvictExpired(now: int)
      modifies this`events
      ensures State() == Sweep(cfg, old(State()), now)
    {
      var cutoff := now - cfg.ttlMs;
      events := DeleteExpired(events, cutoff);
    }

    method GetNextCounter(stream: string) returns (counter: int)
      modifies this`counters
      ensures counter == NextCounter(old(State()), stream)
      ensures counters == old(counters)[stream := counter]
    {
      if stream in counters {
        counter := counters[stream];
      } else {
        var id := LastId(events, stream);
        counter := 0;
        if id.Some? {
          var parsed := ParseInt(AfterLastColon(id.value));
          if parsed.Some? {
            counter := parsed.value;
          }
        }
      }
      counter := counter + 1;
      counters := counters[stream := counter];
    }

    method StoreEventAt(stream: string, message: string, sweepAt: int, storedAt: int) returns (id: Option<string>)
      modifies this
      ensures (State(), id) == StoreEvent(cfg, old(State()), stream, message, sweepAt, storedAt)
    {
      EvictExpired(sweepAt);
      var counter := GetNextCounter(stream);
      var newId := EventId(stream, counter);
      if HasId(events, newId) {
        return None;
      }
      events := events + [Row(NextRowid(events), newId, stream, message, storedAt)];
      if |events| > cfg.maxEvents {
        events := DeleteOldest(events, |events| - cfg.maxEvents);
      }
      return Some(newId);
    }

    /** Sends the selected rows one at a time, as the awaiting loop does. */
    method ReplayEventsAfter(lastEventId: string, now: int) returns (stream: string, sent: seq<Event>)
      ensures (stream, sent) == Replay(cfg, events, lastEventId, now)
    {
      var row := RowOf(events, lastEventId);
      if row.None? {
        return DEFAULT_STREAM, [];
      }
      stream := row.value.stream;
      var rows := SelectAfter(events, stream, row.value.rowid, now - cfg.ttlMs);
      sent := [];
      for i := 0 to |rows|
        invariant sent == Sent(rows)[..i]
      {
        SentAt(rows, i);
        sent := sent + [Event(rows[i].id, rows[i].message)];
      }
      assert sent == Sent(rows);
    }
  }
}
