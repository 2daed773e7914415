/** The task store: rows with a deadline and an owner process, listed a page at a time,
    with tasks whose runner has died moved to `failed` on the way out. */
module TaskStore {
  import opened Wrappers
  import opened JsText
  import opened Cursor

  datatype Status = Working | InputRequired | Completed | Failed | Cancelled

  datatype Executor = Executor(cli: bool, pid: Option<int>)

  /** A row of `mcp_tasks`; its columns and its JSON record agree, so they are kept once. */
  datatype Task = Task(
    taskId: string,
    sessionId: string,
    status: Status,
    statusMessage: Option<string>,
    createdAt: int,
    updatedAt: int,
    expiresAt: int,
    executor: Option<Executor>,
    payload: string)

  /** `Partial<TaskRecord>`: None leaves a field as it is, and Some(None) is a field that is there and undefined, which
      clears it. Identity and creation time are never patched. */
  datatype Patch = Patch(
    status: Option<Status>,
    statusMessage: Option<Option<string>>,
    expiresAt: Option<int>,
    executor: Option<Option<Executor>>,
    payload: Option<string>)

  /** The clock reads of one `update`: for the row's deadline, for the time stamp, for the patched deadline. */
  datatype Clock = Clock(checkAt: int, stampAt: int, keepAt: int)

  /** Those of one `list`: for the select, for the update of each row in turn, for the count. */
  datatype Reads = Reads(selectAt: int, clocks: nat -> Clock, countAt: int)

  const DEFAULT_PAGE_SIZE := 50
  const MAX_PAGE_SIZE := 500
  const FAIL_MESSAGE := "Task runner exited before completing the task"
  const FAIL_PATCH := Patch(Some(Failed), Some(Some(FAIL_MESSAGE)), None, None, None)

  predicate Terminal(s: Status) {
    s.Completed? || s.Failed? || s.Cancelled?
  }

  /** A non-terminal task owned by a CLI process that is no longer alive. */
  predicate Orphan(t: Task, alive: int -> bool) {
    && (t.status.Working? || t.status.InputRequired?)
    && t.executor.Some? && t.executor.value.cli
    && t.executor.value.pid.Some? && !alive(t.executor.value.pid.value)
  }

  // ---------------------------------------------------------------- the table, in rowid order

  /** The row with a task id: at most one, since the id is the primary key. */
  function IndexOf(tasks: seq<Task>, taskId: string): (i: Option<nat>)
    ensures i.Some? ==> i.value < |tasks| && tasks[i.value].taskId == taskId
    ensures i.None? ==> forall j :: 0 <= j < |tasks| ==> tasks[j].taskId != taskId
  {
    if tasks == [] then None
    else if tasks[0].taskId == taskId then Some(0)
    else
      var i := IndexOf(tasks[1..], taskId);
      assert forall j :: 1 <= j < |tasks| ==> tasks[j] == tasks[1..][j - 1];
      if i.None? then None else Some(i.value + 1)
  }

  lemma {:induction false} FirstIndex(tasks: seq<Task>, taskId: string)
    ensures forall i :: 0 <= i < |tasks| && tasks[i].taskId == taskId
                        && (forall j :: 0 <= j < i ==> tasks[j].taskId != taskId)
              ==> IndexOf(tasks, taskId) == Some(i)
  {
    var k := IndexOf(tasks, taskId);
    if k.Some? {
      IndexIsFirst(tasks, taskId);
    }
  }

  lemma {:induction false} IndexIsFirst(tasks: seq<Task>, taskId: string)
    requires IndexOf(tasks, taskId).Some?
    ensures forall j :: 0 <= j < IndexOf(tasks, taskId).value ==> tasks[j].taskId != taskId
  {
    if tasks[0].taskId != taskId {
      IndexIsFirst(tasks[1..], taskId);
      assert forall j :: 1 <= j < |tasks| ==> tasks[j] == tasks[1..][j - 1];
    }
  }

  /** WHERE task_id = ? AND session_id = ? */
  function Find(tasks: seq<Task>, taskId: string, sessionId: string): (i: Option<nat>)
    ensures i.Some? ==> i.value < |tasks| && tasks[i.value].taskId == taskId && tasks[i.value].sessionId == sessionId
  {
    var i := IndexOf(tasks, taskId);
    if i.Some? && tasks[i.value].sessionId == sessionId then i else None
  }

  function RemoveAt(tasks: seq<Task>, i: nat): seq<Task>
    requires i < |tasks|
  {
    tasks[..i] + tasks[i + 1..]
  }

  /** WHERE session_id = ? AND expires_at > ? */
  function Select(tasks: seq<Task>, sessionId: string, now: int): seq<Task> {
    if tasks == [] then []
    else (if tasks[0].sessionId == sessionId && tasks[0].expiresAt > now then [tasks[0]] else [])
         + Select(tasks[1..], sessionId, now)
  }

  predicate Le(a: Task, b: Task) {
    a.createdAt < b.createdAt || (a.createdAt == b.createdAt && TextLe(a.taskId, b.taskId))
  }

  function Insert(t: Task, sorted: seq<Task>): seq<Task> {
    if sorted == [] || Le(t, sorted[0]) then [t] + sorted
    else [sorted[0]] + Insert(t, sorted[1..])
  }

  /** ORDER BY created_at ASC, task_id ASC */
  function Sorted(tasks: seq<Task>): (s: seq<Task>) {
    if tasks == [] then [] else Insert(tasks[0], Sorted(tasks[1..]))
  }

  /** LIMIT ? OFFSET ? */
  function Slice(tasks: seq<Task>, limit: nat, offset: nat): seq<Task> {
    if offset >= |tasks| then []
    else if offset + limit >= |tasks| then tasks[offset..]
    else tasks[offset..offset + limit]
  }

  // ---------------------------------------------------------------- operations on the table

  function Merge(t: Task, patch: Patch, stampAt: int): Task {
    Task(t.taskId, t.sessionId,
         if patch.status.Some? then patch.status.value else t.status,
         if patch.statusMessage.Some? then patch.statusMessage.value else t.statusMessage,
         t.createdAt, stampAt,
         if patch.expiresAt.Some? then patch.expiresAt.value else t.expiresAt,
         if patch.executor.Some? then patch.executor.value else t.executor,
         if patch.payload.Some? then patch.payload.value else t.payload)
  }

  /** `update`: a missing row and a lapsed one answer None; a lapsed row is deleted on the way. */
  function Update(tasks: seq<Task>, taskId: string, sessionId: string, patch: Patch, clock: Clock)
    : (seq<Task>, Option<Task>)
  {
    match Find(tasks, taskId, sessionId)
    case None => (tasks, None)
    case Some(i) =>
      var merged := Merge(tasks[i], patch, clock.stampAt);
      if tasks[i].expiresAt <= clock.checkAt || merged.expiresAt <= clock.keepAt then (RemoveAt(tasks, i), None)
      else (tasks[i := merged], Some(merged))
  }

  /** INSERT, which fails on an id that is there. */
  function Added(tasks: seq<Task>, record: Task): seq<Task> {
    if IndexOf(tasks, record.taskId).None? then tasks + [record] else tasks
  }

  /** DELETE ... WHERE task_id = ? AND session_id = ? */
  function Deleted(tasks: seq<Task>, taskId: string, sessionId: string): seq<Task> {
    var i := Find(tasks, taskId, sessionId);
    if i.Some? then RemoveAt(tasks, i.value) else tasks
  }

  /** What both readers do with a row they have read: the new table, the record to hand out, the events published. */
  function Repair(tasks: seq<Task>, row: Task, clock: Clock, alive: int -> bool): (seq<Task>, Task, seq<Task>) {
    if !Orphan(row, alive) then (tasks, row, [])
    else
      var (after, patched) := Update(tasks, row.taskId, row.sessionId, FAIL_PATCH, clock);
      if patched.Some? then (after, patched.value, [patched.value]) else (after, row, [])
  }

  function RepairAll(tasks: seq<Task>, rows: seq<Task>, clocks: nat -> Clock, alive: int -> bool)
    : (seq<Task>, seq<Task>, seq<Task>)
  {
    if rows == [] then (tasks, [], [])
    else
      var n := |rows| - 1;
      var (t0, records, events) := RepairAll(tasks, rows[..n], clocks, alive);
      var (t1, record, event) := Repair(t0, rows[n], clocks(n), alive);
      (t1, records + [record], events + event)
  }

  datatype Page = Page(tasks: seq<Task>, nextCursor: Option<string>)

  function PageSize(requested: Option<int>): (n: nat)
    ensures 1 <= n <= MAX_PAGE_SIZE
  {
    var asked := if requested.Some? then requested.value else DEFAULT_PAGE_SIZE;
    var capped := if asked < MAX_PAGE_SIZE then asked else MAX_PAGE_SIZE;
    if capped > 1 then capped else 1
  }

  type Parser = seq<Byte> -> Option<Json>

  function OffsetOf(parse: Parser, cursor: Option<string>): nat {
    if cursor.Some? && cursor.value != "" then DecodeCursor(parse, cursor.value) else 0
  }

  /** `list`: the table after the repairs, the page, and the events published. */
  function List(parse: Parser, tasks: seq<Task>, sessionId: string, cursor: Option<string>, requested: Option<int>,
                times: Reads, alive: int -> bool)
    : (seq<Task>, Page, seq<Task>)
  {
    var offset := OffsetOf(parse, cursor);
    var rows := Slice(Sorted(Select(tasks, sessionId, times.selectAt)), PageSize(requested), offset);
    var (after, records, events) := RepairAll(tasks, rows, times.clocks, alive);
    var total := |Select(after, sessionId, times.countAt)|;
    var next := if offset + |rows| < total then Some(EncodeCursor(offset + |rows|)) else None;
    (after, Page(records, next), events)
  }

  // ---------------------------------------------------------------- the store object

  class SqliteTaskStore {
    const parse: Parser
    const alive: int -> bool
    var tasks: seq<Task>
    /** Every record handed to `publishTerminal`, in order. */
    var published: seq<Task>

    constructor (parse: Parser, alive: int -> bool, file: seq<Task>)
      ensures this.parse == parse && this.alive == alive && tasks == file && published == []
    {
      this.parse := parse;
      this.alive := alive;
      tasks := file;
      published := [];
    }

    /** False is the exception of an INSERT that meets an existing task id. */
    method Create(record: Task, now: int) returns (ok: bool)
      modifies this`tasks
      ensures ok <==> record.expiresAt <= now || IndexOf(old(tasks), record.taskId).None?
      ensures tasks == if ok && record.expiresAt > now then old(tasks) + [record] else old(tasks)
      ensures record.expiresAt > now ==> tasks == Added(old(tasks), record)
    {
      if record.expiresAt <= now {
        return true;
      }
      ok := IndexOf(tasks, record.taskId).None?;
      if ok {
        tasks := tasks + [record];
      }
    }

    method DeleteTask(taskId: string, sessionId: string)
      modifies this`tasks
      ensures tasks == Deleted(old(tasks), taskId, sessionId)
      ensures (forall t :: t in old(tasks) ==> t.taskId != taskId || t.sessionId != sessionId) ==> tasks == old(tasks)
      ensures forall i :: 0 <= i < |old(tasks)| && old(tasks)[i].taskId == taskId && old(tasks)[i].sessionId == sessionId
                          && (forall j :: 0 <= j < i ==> old(tasks)[j].taskId != taskId)
                ==> tasks == old(tasks)[..i] + old(tasks)[i + 1..]
    {
      var i := Find(tasks, taskId, sessionId);
      FirstIndex(tasks, taskId);
      if i.Some? {
        tasks := RemoveAt(tasks, i.value);
      }
    }

    method UpdateTask(taskId: string, sessionId: string, patch: Patch, clock: Clock) returns (merged: Option<Task>)
      modifies this`tasks
      ensures (tasks, merged) == Update(old(tasks), taskId, sessionId, patch, clock)
    {
      var i := Find(tasks, taskId, sessionId);
      if i.None? {
        return None;
      }
      var existing := tasks[i.value];
      if existing.expiresAt <= clock.checkAt {
        tasks := RemoveAt(tasks, i.value);
        return None;
      }
      var record := Merge(existing, patch, clock.stampAt);
      if record.expiresAt <= clock.keepAt {
        tasks := RemoveAt(tasks, i.value);
        return None;
      }
      tasks := tasks[i.value := record];
      return Some(record);
    }

    method RepairRow(row: Task, clock: Clock) returns (record: Task)
      modifies this
      ensures var (after, handed, events) := Repair(old(tasks), row, clock, alive);
              tasks == after && record == handed && published == old(published) + events
    {
      record := row;
      if Orphan(row, alive) {
        var patched := UpdateTask(row.taskId, row.sessionId, FAIL_PATCH, clock);
        if patched.Some? {
          published := published + [patched.value];
          record := patched.value;
        }
      }
    }

    method Get(taskId: string, sessionId: string, readAt: int, clock: Clock) returns (record: Option<Task>)
      modifies this
      ensures match Find(old(tasks), taskId, sessionId)
              case None => record == None && tasks == old(tasks) && published == old(published)
              case Some(i) =>
                if old(tasks)[i].expiresAt <= readAt
                then record == None && tasks == RemoveAt(old(tasks), i) && published == old(published)
                else
                  var (after, handed, events) := Repair(old(tasks), old(tasks)[i], clock, alive);
                  record == Some(handed) && tasks == after && published == old(published) + events
      // While its deadline holds, no unfinished task of a CLI process that is dead is handed out.
      ensures record.Some? && record.value.expiresAt > clock.checkAt && record.value.expiresAt > clock.keepAt ==>
                var t := record.value;
                Terminal(t.status) || t.executor.None? || !t.executor.value.cli || t.executor.value.pid.None?
                || alive(t.executor.value.pid.value)
    {
      var i := Find(tasks, taskId, sessionId);
      if i.None? {
        return None;
      }
      var row := tasks[i.value];
      if row.expiresAt <= readAt {
        tasks := RemoveAt(tasks, i.value);
        return None;
      }
      var handed := RepairRow(row, clock);
      return Some(handed);
    }

    method RepairRows(rows: seq<Task>, clocks: nat -> Clock) returns (records: seq<Task>)
      modifies this
      ensures var (after, handed, events) := RepairAll(old(tasks), rows, clocks, alive);
              tasks == after && records == handed && published == old(published) + events
    {
      hide Repair;
      records := [];
      for i := 0 to |rows|
        invariant var (after, handed, events) := RepairAll(old(tasks), rows[..i], clocks, alive);
                  tasks == after && records == handed && published == old(published) + events
      {
        assert rows[..i + 1][..i] == rows[..i];
        var record := RepairRow(rows[i], clocks(i));
        records := records + [record];
      }
      assert rows[..|rows|] == rows;
    }

    method ListPage(sessionId: string, cursor: Option<string>, requested: Option<int>, times: Reads) returns (page: Page)
      modifies this
      ensures var (after, listed, events) := List(parse, old(tasks), sessionId, cursor, requested, times, alive);
              tasks == after && page == listed && published == old(published) + events
    {
      hide RepairAll, Select, Sorted, Slice, OffsetOf, EncodeCursor;
      var offset := OffsetOf(parse, cursor);
      var rows := Slice(Sorted(Select(tasks, sessionId, times.selectAt)), PageSize(requested), offset);
      var records := RepairRows(rows, times.clocks);
      var total := |Select(tasks, sessionId, times.countAt)|;
      page := Page(records, if offset + |rows| < total then Some(EncodeCursor(offset + |rows|)) else None);
    }
  }
}
