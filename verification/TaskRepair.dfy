/** Orphan repair under interleaving: readers take a snapshot, and patch its rows one step at a time while
    other readers, the application and other processes keep writing. */
module TaskRepair {
  import opened Wrappers
  import opened JsText
  import opened TaskStore
  import opened TaskPaging

  /** `pending[r]` holds the rows reader r has read and not yet handled. */
  datatype World = World(tasks: seq<Task>, pending: map<nat, seq<Task>>, published: seq<Task>)

  datatype Action =
    /** A reader takes its snapshot: one row for `get`, a page for `list`. */
    | Read(reader: nat, sessionId: string, limit: nat, offset: nat, now: int)
    /** A reader handles the first row of its snapshot. */
    | Handle(reader: nat, clock: Clock, alive: int -> bool)
    /** Any other writer. */
    | Create(task: Task)
    | Write(taskId: string, sessionId: string, patch: Patch, clock: Clock)
    | Delete(taskId: string, sessionId: string)

  predicate Ready(w: World, r: nat) {
    r in w.pending && w.pending[r] != []
  }

  function Do(w: World, a: Action): World {
    match a
    case Read(r, sessionId, limit, offset, now) =>
      w.(pending := w.pending[r := Slice(Sorted(Select(w.tasks, sessionId, now)), limit, offset)])
    case Handle(r, clock, alive) =>
      if !Ready(w, r) then w
      else
        var (after, _, events) := Repair(w.tasks, w.pending[r][0], clock, alive);
        World(after, w.pending[r := w.pending[r][1..]], w.published + events)
    case Create(task) => w.(tasks := Added(w.tasks, task))
    case Write(taskId, sessionId, patch, clock) => w.(tasks := Update(w.tasks, taskId, sessionId, patch, clock).0)
    case Delete(taskId, sessionId) => w.(tasks := Deleted(w.tasks, taskId, sessionId))
  }

  predicate Outlives(t: Task, clock: Clock) {
    t.expiresAt > clock.checkAt && t.expiresAt > clock.keepAt
  }

  /** The row now in the table under a snapshot row's id, if it can still be patched. */
  function Current(tasks: seq<Task>, row: Task, clock: Clock): Option<Task> {
    var i := Find(tasks, row.taskId, row.sessionId);
    if i.Some? && Outlives(tasks[i.value], clock) then Some(tasks[i.value]) else None
  }

  /** Two records of how a task ended. */
  predicate SameEnd(a: Task, b: Task) {
    a.status == b.status && a.statusMessage == b.statusMessage && a.payload == b.payload
  }

  /** The end a repair gives. */
  predicate FailedByRepair(t: Task) {
    t.status.Failed? && t.statusMessage == Some(FAIL_MESSAGE)
  }

  /** What a repair makes of a row. */
  function Failing(t: Task, clock: Clock): Task {
    t.(status := Failed, statusMessage := Some(FAIL_MESSAGE), updatedAt := clock.stampAt)
  }

  /** A task that has ended keeps its status, its message and its result. */
  ghost predicate RespectsLifecycle(before: seq<Task>, after: seq<Task>) {
    forall i, j ::
      0 <= i < |before| && 0 <= j < |after| && before[i].taskId == after[j].taskId && Terminal(before[i].status)
      ==> SameEnd(after[j], before[i])
  }

  // ---------------------------------------------------------------- one step

  /** `update` on a live row: identity and creation time never change, patched fields win, a field that is there and
      undefined is cleared, the rest stay, and no other row is touched; a row that has lapsed, or would have by the patch,
      is deleted instead. */
  lemma UpdateEffect(tasks: seq<Task>, taskId: string, sessionId: string, patch: Patch, clock: Clock)
    ensures var (after, merged) := Update(tasks, taskId, sessionId, patch, clock);
            var found := Find(tasks, taskId, sessionId);
            if found.None? then after == tasks && merged == None
            else
              var i := found.value;
              var row := tasks[i];
              if merged.None? then
                && after == tasks[..i] + tasks[i + 1..]
                && (row.expiresAt <= clock.checkAt
                    || (if patch.expiresAt.Some? then patch.expiresAt.value else row.expiresAt) <= clock.keepAt)
              else
                var m := merged.value;
                && row.expiresAt > clock.checkAt && m.expiresAt > clock.keepAt
                && |after| == |tasks| && after[i] == m
                && (forall j :: 0 <= j < |tasks| && j != i ==> after[j] == tasks[j])
                && m.taskId == row.taskId && m.sessionId == row.sessionId && m.createdAt == row.createdAt
                && m.updatedAt == clock.stampAt
                && m.status == (if patch.status.Some? then patch.status.value else row.status)
                && m.expiresAt == (if patch.expiresAt.Some? then patch.expiresAt.value else row.expiresAt)
                && m.payload == (if patch.payload.Some? then patch.payload.value else row.payload)
                && m.executor == (if patch.executor.Some? then patch.executor.value else row.executor)
                && m.statusMessage == (if patch.statusMessage.Some? then patch.statusMessage.value else row.statusMessage)
  {
    hide IndexOf;
  }

  /** What handling a row does: a row that is not an orphan, or is gone, changes nothing that is live; an orphan's
      live row becomes `failed` under the repair message, nothing else moves, and one event carries the new record. */
  lemma RepairEffect(tasks: seq<Task>, row: Task, clock: Clock, alive: int -> bool)
    requires UniqueIds(tasks)
    ensures var (after, record, events) := Repair(tasks, row, clock, alive);
            var cur := Current(tasks, row, clock);
            if Orphan(row, alive) && cur.Some? then
              && |after| == |tasks| && events == [record] && record == Failing(cur.value, clock)
              && (forall i :: 0 <= i < |tasks| ==>
                    after[i] == if tasks[i].taskId == row.taskId then record else tasks[i])
            else
              && record == row && events == []
              && (forall t :: t in after ==> t in tasks)
              && (forall t :: t in tasks && (t.taskId != row.taskId || Outlives(t, clock)) ==> t in after)
  {
    var i := Find(tasks, row.taskId, row.sessionId);
    if Orphan(row, alive) && i.Some? && !Outlives(tasks[i.value], clock) {
      var k := i.value;
      assert tasks == tasks[..k] + [tasks[k]] + tasks[k + 1..];
    }
  }

  /** Handling a row whose task can still be patched publishes its end, and leaves it failed, exactly when the row read is
      that of an unfinished task with a CLI process that is dead; any other row is handed out as read, and the table stays.
      So nothing that is handed out is such a task. */
  lemma OrphanFailsIff(tasks: seq<Task>, row: Task, clock: Clock, alive: int -> bool, k: nat)
    requires UniqueIds(tasks) && k < |tasks| && tasks[k].taskId == row.taskId && tasks[k].sessionId == row.sessionId
    requires tasks[k].expiresAt > clock.checkAt && tasks[k].expiresAt > clock.keepAt
    ensures var (after, record, events) := Repair(tasks, row, clock, alive);
            && (events != [] <==> !Terminal(row.status) && row.executor.Some? && row.executor.value.cli
                                  && row.executor.value.pid.Some? && !alive(row.executor.value.pid.value))
            && (events != [] ==> events == [record] && after == tasks[k := record] && record.taskId == row.taskId
                                 && record.status == Failed
                                 && record.statusMessage == Some("Task runner exited before completing the task"))
            && (events == [] ==> record == row && after == tasks)
            && (Terminal(record.status) || record.executor.None? || !record.executor.value.cli
                || record.executor.value.pid.None? || alive(record.executor.value.pid.value))
  {
    assert IndexOf(tasks, row.taskId) == Some(k);
  }

  /** A repair leaves every task that has ended as it ended exactly when it does not patch one that ended otherwise than
      by a repair: `update` does not look at the status again. */
  lemma RepairRespectsLifecycleIff(tasks: seq<Task>, row: Task, clock: Clock, alive: int -> bool)
    requires UniqueIds(tasks)
    ensures RespectsLifecycle(tasks, Repair(tasks, row, clock, alive).0)
            <==> !(Orphan(row, alive) && Current(tasks, row, clock).Some?
                   && Terminal(Current(tasks, row, clock).value.status)
                   && !FailedByRepair(Current(tasks, row, clock).value))
  {
    RepairEffect(tasks, row, clock, alive);
    var after := Repair(tasks, row, clock, alive).0;
    var cur := Current(tasks, row, clock);
    if Orphan(row, alive) && cur.Some? {
      var k := Find(tasks, row.taskId, row.sessionId).value;
      assert after[k].taskId == tasks[k].taskId && after[k] == Failing(tasks[k], clock);
      if !Terminal(cur.value.status) || FailedByRepair(cur.value) {
        forall i, j | 0 <= i < |tasks| && 0 <= j < |after| && tasks[i].taskId == after[j].taskId
                      && Terminal(tasks[i].status)
          ensures SameEnd(after[j], tasks[i])
        {
          assert after[j].taskId == tasks[j].taskId;
          assert i == j;
        }
      }
    } else {
      forall i, j | 0 <= i < |tasks| && 0 <= j < |after| && tasks[i].taskId == after[j].taskId
                    && Terminal(tasks[i].status)
        ensures SameEnd(after[j], tasks[i])
      {
        assert after[j] in tasks;
      }
    }
  }

  /** A row that is unchanged since it was read, or gone, is changed only if it is itself an unfinished task of a
      dead process; then it fails, and nothing else moves. */
  lemma FreshRepairIsLegal(tasks: seq<Task>, row: Task, clock: Clock, alive: int -> bool)
    requires UniqueIds(tasks) && (Orphan(row, alive) ==> Current(tasks, row, clock) in {None, Some(row)})
    ensures var after := Repair(tasks, row, clock, alive).0;
            && RespectsLifecycle(tasks, after)
            && (forall t :: t in after && t !in tasks ==>
                  Orphan(row, alive) && row in tasks && !Terminal(row.status) && t == Failing(row, clock))
  {
    RepairRespectsLifecycleIff(tasks, row, clock, alive);
    RepairEffect(tasks, row, clock, alive);
    hide Repair, Find, Merge;
  }

  // ---------------------------------------------------------------- whole runs

  ghost predicate HasFailed(tasks: seq<Task>, taskId: string) {
    exists i :: 0 <= i < |tasks| && tasks[i].taskId == taskId && tasks[i].status == Failed
  }

  /** A reader's next step patches the live row under its snapshot row's id. */
  predicate Patches(w: World, a: Action) {
    && a.Handle? && Ready(w, a.reader) && Orphan(w.pending[a.reader][0], a.alive)
    && Current(w.tasks, w.pending[a.reader][0], a.clock).Some?
  }

  /** The guard: it patches a task that has meanwhile ended, otherwise than by a repair or with its end already
      published by a reader. */
  predicate Overwrites(w: World, a: Action) {
    && Patches(w, a)
    && var cur := Current(w.tasks, w.pending[a.reader][0], a.clock).value;
       Terminal(cur.status) && (!FailedByRepair(cur) || Published(w.published, cur.taskId) > 0)
  }

  /** What the rest of the system is asked: other writers leave tasks that have ended as they ended, and the id of a task
      whose end was published is not reused. */
  ghost predicate Lawful(w: World, a: Action) {
    match a
    case Create(task) => forall e :: e in w.published ==> e.taskId != task.taskId
    case Write(_, _, _, _) => RespectsLifecycle(w.tasks, Do(w, a).tasks)
    case _ => true
  }

  ghost predicate LawfulRun(w: World, actions: seq<Action>)
    decreases |actions|
  {
    actions != [] ==> Lawful(w, actions[0]) && LawfulRun(Do(w, actions[0]), actions[1..])
  }

  function RunAll(w: World, actions: seq<Action>): World
    decreases |actions|
  {
    if actions == [] then w else RunAll(Do(w, actions[0]), actions[1..])
  }

  function Published(events: seq<Task>, taskId: string): nat {
    if events == [] then 0
    else Published(events[..|events| - 1], taskId) + (if events[|events| - 1].taskId == taskId then 1 else 0)
  }

  /** No task has two terminal events, and a task that has one is finished or gone. */
  ghost predicate OneEventEach(w: World) {
    && UniqueIds(w.tasks)
    && (forall id :: Published(w.published, id) <= 1)
    && (forall i :: 0 <= i < |w.tasks| && Published(w.published, w.tasks[i].taskId) == 1 ==> Terminal(w.tasks[i].status))
  }

  lemma {:induction false} PublishedMeansMember(events: seq<Task>, id: string)
    ensures Published(events, id) > 0 <==> exists e :: e in events && e.taskId == id
  {
    if events != [] {
      var n := |events| - 1;
      PublishedMeansMember(events[..n], id);
      assert events == events[..n] + [events[n]];
      if exists e :: e in events && e.taskId == id {
        var e :| e in events && e.taskId == id;
        assert e == events[n] || e in events[..n];
      }
      assert events[n] in events;
    }
  }

  /** One more event, and one more in its count. */
  lemma PublishedSnoc(events: seq<Task>, e: Task, id: string)
    ensures Published(events + [e], id) == Published(events, id) + (if e.taskId == id then 1 else 0)
  {
    assert (events + [e])[..|events|] == events;
  }

  /** A patch: the counts go up by one for its task alone, whose row is then `failed`. */
  lemma PatchEffect(w: World, a: Action)
    requires OneEventEach(w) && Patches(w, a)
    ensures var row, w' := w.pending[a.reader][0], Do(w, a);
            && (forall id ::
                  Published(w'.published, id) == Published(w.published, id) + (if row.taskId == id then 1 else 0))
            && |w'.tasks| == |w.tasks| && UniqueIds(w'.tasks)
            && (forall i :: 0 <= i < |w.tasks| ==>
                  w'.tasks[i] == if w.tasks[i].taskId == row.taskId then Failing(w.tasks[i], a.clock) else w.tasks[i])
            && (exists i :: 0 <= i < |w.tasks| && w.tasks[i].taskId == row.taskId
                            && Some(w.tasks[i]) == Current(w.tasks, row, a.clock))
  {
    var row := w.pending[a.reader][0];
    var w' := Do(w, a);
    RepairEffect(w.tasks, row, a.clock, a.alive);
    var (after, record, events) := Repair(w.tasks, row, a.clock, a.alive);
    assert w'.published == w.published + [record];
    forall id
      ensures Published(w'.published, id) == Published(w.published, id) + (if row.taskId == id then 1 else 0)
    {
      PublishedSnoc(w.published, record, id);
    }
    var k := Find(w.tasks, row.taskId, row.sessionId).value;
    assert w.tasks[k].taskId == row.taskId && Some(w.tasks[k]) == Current(w.tasks, row, a.clock);
    assert forall i :: 0 <= i < |after| ==> after[i].taskId == w.tasks[i].taskId;
  }

  /** A step of a reader leaves tasks that have ended as they ended, and events single, exactly when it does not
      overwrite; and a patch that does not leaves its task failed, with one event. */
  lemma HandleIsSoundIff(w: World, a: Action)
    requires OneEventEach(w) && a.Handle?
    ensures OneEventEach(Do(w, a)) && RespectsLifecycle(w.tasks, Do(w, a).tasks) <==> !Overwrites(w, a)
    ensures Patches(w, a) && !Overwrites(w, a) ==>
              var id := w.pending[a.reader][0].taskId;
              && Published(Do(w, a).published, id) == 1
              && HasFailed(Do(w, a).tasks, id)
  {
    if Patches(w, a) {
      PatchIsSoundIff(w, a);
    } else if Ready(w, a.reader) {
      var row := w.pending[a.reader][0];
      RepairRespectsLifecycleIff(w.tasks, row, a.clock, a.alive);
      RepairEffect(w.tasks, row, a.clock, a.alive);
      assert Do(w, a).published == w.published;
      SubtableKeeps(w, Do(w, a).tasks, row, a);
    }
  }

  lemma PatchIsSoundIff(w: World, a: Action)
    requires OneEventEach(w) && Patches(w, a)
    ensures OneEventEach(Do(w, a)) && RespectsLifecycle(w.tasks, Do(w, a).tasks) <==> !Overwrites(w, a)
    ensures !Overwrites(w, a) ==>
              var id := w.pending[a.reader][0].taskId;
              && Published(Do(w, a).published, id) == 1
              && HasFailed(Do(w, a).tasks, id)
  {
    PatchEffect(w, a);
    var row, w' := w.pending[a.reader][0], Do(w, a);
    var k :| 0 <= k < |w.tasks| && w.tasks[k].taskId == row.taskId && Some(w.tasks[k]) == Current(w.tasks, row, a.clock);
    assert Overwrites(w, a) <==>
           Terminal(w.tasks[k].status) && (!FailedByRepair(w.tasks[k]) || Published(w.published, row.taskId) > 0);
    assert w'.tasks[k] == Failing(w.tasks[k], a.clock);
    hide Do, Current, Orphan, Repair, Patches, Overwrites, Ready, Published;
    if Published(w.published, row.taskId) > 0 {
      assert Published(w'.published, row.taskId) > 1;
      assert !OneEventEach(w');
      assert Published(w.published, w.tasks[k].taskId) == 1;
    } else if Terminal(w.tasks[k].status) && !FailedByRepair(w.tasks[k]) {
      assert !SameEnd(w'.tasks[k], w.tasks[k]);
      assert !RespectsLifecycle(w.tasks, w'.tasks);
    } else {
      PatchedRows(w.tasks, w'.tasks, row.taskId, a.clock);
      PatchedEvents(w, w', row.taskId, a.clock);
    }
  }

  lemma PatchedRows(before: seq<Task>, after: seq<Task>, id: string, clock: Clock)
    requires UniqueIds(before) && |before| == |after|
    requires forall i :: 0 <= i < |before| ==>
               after[i] == if before[i].taskId == id then Failing(before[i], clock) else before[i]
    requires forall i :: 0 <= i < |before| && before[i].taskId == id ==>
               !Terminal(before[i].status) || FailedByRepair(before[i])
    ensures RespectsLifecycle(before, after)
  {
    forall i, j | 0 <= i < |before| && 0 <= j < |after| && before[i].taskId == after[j].taskId
                  && Terminal(before[i].status)
      ensures SameEnd(after[j], before[i])
    {
      assert after[j].taskId == before[j].taskId;
    }
  }

  lemma PatchedEvents(w: World, w': World, id: string, clock: Clock)
    requires OneEventEach(w) && Published(w.published, id) == 0 && |w'.tasks| == |w.tasks| && UniqueIds(w'.tasks)
    requires forall x :: Published(w'.published, x) == Published(w.published, x) + (if id == x then 1 else 0)
    requires forall i :: 0 <= i < |w.tasks| ==>
               w'.tasks[i] == if w.tasks[i].taskId == id then Failing(w.tasks[i], clock) else w.tasks[i]
    ensures OneEventEach(w')
  {
    hide Published;
  }

  /** What is left when at most one row is deleted. */
  lemma SubtableKeeps(w: World, after: seq<Task>, row: Task, a: Action)
    requires OneEventEach(w) && a.Handle? && after == Repair(w.tasks, row, a.clock, a.alive).0
    requires !(Orphan(row, a.alive) && Current(w.tasks, row, a.clock).Some?)
    ensures UniqueIds(after)
    ensures forall i :: 0 <= i < |after| && Published(w.published, after[i].taskId) == 1 ==> Terminal(after[i].status)
  {
    var i := Find(w.tasks, row.taskId, row.sessionId);
    if Orphan(row, a.alive) && i.Some? {
      assert after == RemoveAt(w.tasks, i.value);
      RemoveKeeps(w, i.value);
    } else {
      assert after == w.tasks;
    }
  }

  lemma RemoveKeeps(w: World, k: nat)
    requires OneEventEach(w) && k < |w.tasks|
    ensures OneEventEach(w.(tasks := RemoveAt(w.tasks, k)))
  {
    var after := RemoveAt(w.tasks, k);
    assert forall i :: 0 <= i < |after| ==> after[i] == w.tasks[if i < k then i else i + 1];
  }

  lemma WriteKeepsOneEvent(w: World, a: Action)
    requires OneEventEach(w) && Lawful(w, a) && a.Write?
    ensures OneEventEach(Do(w, a))
  {
    var i := Find(w.tasks, a.taskId, a.sessionId);
    if i.Some? {
      var merged := Merge(w.tasks[i.value], a.patch, a.clock.stampAt);
      if w.tasks[i.value].expiresAt <= a.clock.checkAt || merged.expiresAt <= a.clock.keepAt {
        RemoveKeeps(w, i.value);
      } else {
        var after := Do(w, a).tasks;
        assert after == w.tasks[i.value := merged];
        assert after[i.value].taskId == w.tasks[i.value].taskId;
      }
    }
  }

  /** What anyone but a reader does keeps events single. */
  lemma OthersKeepOneEvent(w: World, a: Action)
    requires OneEventEach(w) && Lawful(w, a) && !a.Handle?
    ensures OneEventEach(Do(w, a))
  {
    match a
    case Read(_, _, _, _, _) =>
    case Create(task) =>
      PublishedMeansMember(w.published, task.taskId);
    case Write(_, _, _, _) => WriteKeepsOneEvent(w, a);
    case Delete(taskId, sessionId) =>
      var i := Find(w.tasks, taskId, sessionId);
      if i.Some? {
        RemoveKeeps(w, i.value);
      }
  }

  /** No task ever has two events, one that has an event is finished or gone, and no reader changes how a task ended. */
  ghost predicate Sound(w: World, actions: seq<Action>)
    decreases |actions|
  {
    && OneEventEach(w)
    && (actions != [] ==>
          && (actions[0].Handle? ==> RespectsLifecycle(w.tasks, Do(w, actions[0]).tasks))
          && Sound(Do(w, actions[0]), actions[1..]))
  }

  ghost predicate NeverOverwrites(w: World, actions: seq<Action>)
    decreases |actions|
  {
    actions != [] ==> !Overwrites(w, actions[0]) && NeverOverwrites(Do(w, actions[0]), actions[1..])
  }

  /** Over every interleaving of readers with lawful writers: no task gets two terminal events and none that has ended
      is failed again, if and only if no reader patches a row that has meanwhile ended so. */
  lemma {:induction false} OrphansFailOnceIff(w: World, actions: seq<Action>)
    requires OneEventEach(w) && LawfulRun(w, actions)
    ensures Sound(w, actions) <==> NeverOverwrites(w, actions)
    decreases |actions|
  {
    hide OneEventEach, Lawful, Do, Patches, Overwrites, RespectsLifecycle;
    if actions != [] {
      var a := actions[0];
      assert Sound(w, actions) <==>
             (a.Handle? ==> RespectsLifecycle(w.tasks, Do(w, a).tasks)) && Sound(Do(w, a), actions[1..]);
      if a.Handle? {
        HandleIsSoundIff(w, a);
      } else {
        OthersKeepOneEvent(w, a);
        OnlyReadersOverwrite(w, a);
      }
      if OneEventEach(Do(w, a)) {
        OrphansFailOnceIff(Do(w, a), actions[1..]);
      } else {
        assert !Sound(Do(w, a), actions[1..]);
      }
    }
  }

  lemma OnlyReadersOverwrite(w: World, a: Action)
    ensures Overwrites(w, a) ==> a.Handle?
  {
  }

  // ---------------------------------------------------------------- what stale snapshots do

  predicate NobodyAlive(pid: int) {
    false
  }

  function StaleTask(id: string): Task {
    Task(id, "s", Working, None, 0, 0, 100, Some(Executor(true, Some(7))), "")
  }

  function At(t: int): Clock {
    Clock(t, t, t)
  }

  /** Two orphans, listed in this order. */
  const TWO := [StaleTask("t"), StaleTask("u")]

  lemma TwoInOrder(a: Task, b: Task)
    requires SameKey(a, TWO[0]) && SameKey(b, TWO[1])
    ensures Sorted(Select([a, b], "s", 1)) == [a, b]
  {
    assert [a, b][1..] == [b] && [b][1..] == [];
    assert Select([b], "s", 1) == [b] && Select([a, b], "s", 1) == [a, b];
    assert Sorted([b]) == Insert(b, Sorted([b][1..])) == [b];
    assert CodePoints("t")[0] == 't' as int && CodePoints("u")[0] == 'u' as int;
    assert Le(a, b);
  }

  /** A reader takes its whole page, or the row at one offset. */
  lemma Snapshot(w: World, r: nat, a: Task, b: Task, offset: nat)
    requires w.tasks == [a, b] && SameKey(a, TWO[0]) && SameKey(b, TWO[1]) && offset < 2
    ensures Do(w, Read(r, "s", 10, offset, 1)) == w.(pending := w.pending[r := [a, b][offset..]])
  {
    TwoInOrder(a, b);
    hide Sorted, Select;
  }

  /** Handling a row of the page fails it whatever it has become. */
  lemma HandleOne(w: World, r: nat, a: Task, b: Task, row: Task, rest: seq<Task>, t: int)
    requires w.tasks == [a, b] && SameKey(a, TWO[0]) && SameKey(b, TWO[1]) && t < 100
    requires r in w.pending && w.pending[r] == [row] + rest && Orphan(row, NobodyAlive)
    requires SameKey(row, TWO[0]) || SameKey(row, TWO[1])
    ensures var failed := Failing(if row.taskId == "t" then a else b, At(t));
            Do(w, Handle(r, At(t), NobodyAlive))
            == World(if row.taskId == "t" then [failed, b] else [a, failed], w.pending[r := rest], w.published + [failed])
  {
    assert [a, b][1..] == [b] && [b][1..] == [];
    assert a.taskId == "t" && b.taskId == "u" && "t"[0] != "u"[0];
    assert IndexOf([b], "u") == Some(0);
    assert IndexOf([a, b], "t") == Some(0) && IndexOf([a, b], "u") == Some(1);
    assert ([row] + rest)[1..] == rest;
  }

  lemma RunStep(w: World, a: Action, rest: seq<Action>)
    ensures RunAll(w, [a] + rest) == RunAll(Do(w, a), rest)
  {
    assert ([a] + rest)[1..] == rest;
  }

  lemma {:induction false} RunSnoc(w: World, actions: seq<Action>, a: Action)
    ensures RunAll(w, actions + [a]) == Do(RunAll(w, actions), a)
    decreases |actions|
  {
    hide Do;
    if actions == [] {
      RunStep(w, a, []);
      assert [] + [a] == [a] + [];
    } else {
      assert actions + [a] == [actions[0]] + (actions[1..] + [a]);
      assert actions == [actions[0]] + actions[1..];
      RunStep(w, actions[0], actions[1..] + [a]);
      RunStep(w, actions[0], actions[1..]);
      RunSnoc(Do(w, actions[0]), actions[1..], a);
    }
  }

  const PAGE := Read(0, "s", 10, 0, 1)
  const COMPLETES := Write("u", "s", Patch(Some(Completed), None, None, None, Some("result")), At(3))

  /** Handling the first row lets others in, and the second task completes before the reader comes to it; the reader
      still fails it. */
  lemma StaleListOverwritesCompleted()
    ensures var w := World(TWO, map[], []);
            var w1 := RunAll(w, [PAGE, Handle(0, At(2), NobodyAlive), COMPLETES]);
            var w2 := RunAll(w, [PAGE, Handle(0, At(2), NobodyAlive), COMPLETES, Handle(0, At(4), NobodyAlive)]);
            && |w1.tasks| == 2 && w1.tasks[1].taskId == "u" && w1.tasks[1].status == Completed
            && |w2.tasks| == 2 && w2.tasks[1].taskId == "u" && w2.tasks[1].status == Failed
            && !RespectsLifecycle(w1.tasks, w2.tasks)
  {
    var w := World(TWO, map[], []);
    var t, u := TWO[0], TWO[1];
    var handle, again := Handle(0, At(2), NobodyAlive), Handle(0, At(4), NobodyAlive);
    Snapshot(w, 0, t, u, 0);
    assert [t, u][0..] == [t] + [u];
    var a := Do(w, PAGE);
    HandleOne(a, 0, t, u, t, [u], 2);
    var failed := Failing(t, At(2));
    var b := Do(a, handle);
    var done := Merge(u, COMPLETES.patch, 3);
    CompleteSecond(b, failed, u);
    var c := Do(b, COMPLETES);
    assert [u] == [u] + [];
    HandleOne(c, 0, failed, done, u, [], 4);
    hide Do, Merge;
    RunThree(w, PAGE, handle, COMPLETES);
    assert [PAGE, handle, COMPLETES, again] == [PAGE, handle, COMPLETES] + [again];
    RunSnoc(w, [PAGE, handle, COMPLETES], again);
    assert c.tasks[1] == done && Do(c, again).tasks[1] == Failing(done, At(4));
    assert !SameEnd(Do(c, again).tasks[1], c.tasks[1]);
  }

  lemma CompleteSecond(w: World, a: Task, u: Task)
    requires w.tasks == [a, u] && a.taskId == "t" && u == TWO[1]
    ensures Do(w, COMPLETES) == w.(tasks := [a, Merge(u, COMPLETES.patch, 3)])
    ensures Merge(u, COMPLETES.patch, 3).status == Completed && SameKey(Merge(u, COMPLETES.patch, 3), u)
  {
    assert [a, u][1..] == [u] && "t"[0] != "u"[0];
    assert IndexOf([u], "u") == Some(0) && IndexOf([a, u], "u") == Some(1);
  }

  lemma RunThree(w: World, a: Action, b: Action, c: Action)
    ensures RunAll(w, [a, b, c]) == Do(Do(Do(w, a), b), c)
  {
    hide Do;
    RunSnoc(w, [a, b], c);
    RunSnoc(w, [a], b);
    RunSnoc(w, [], a);
    assert [a, b, c] == [a, b] + [c] && [a, b] == [a] + [b] && [a] == [] + [a];
  }

  /** Within one process: while one reader has still to come to the second row of its page, another reads that task and
      fails it; both publish its end. */
  lemma TwoReadersPublishTwice()
    ensures var w := World(TWO, map[], []);
            var actions := [PAGE, Handle(0, At(2), NobodyAlive), Read(1, "s", 10, 1, 1), Handle(1, At(3), NobodyAlive),
                            Handle(0, At(4), NobodyAlive)];
            Published(RunAll(w, actions).published, "u") == 2
  {
    hide Do, RunAll, Published;
    var w := World(TWO, map[], []);
    var t, u := TWO[0], TWO[1];
    var first, second := Handle(0, At(2), NobodyAlive), Handle(1, At(3), NobodyAlive);
    var third := Handle(0, At(4), NobodyAlive);
    var other := Read(1, "s", 10, 1, 1);
    Snapshot(w, 0, t, u, 0);
    assert [t, u][0..] == [t] + [u] && [u] == [u] + [];
    var a := Do(w, PAGE);
    HandleOne(a, 0, t, u, t, [u], 2);
    var failed := Failing(t, At(2));
    var b := Do(a, first);
    Snapshot(b, 1, failed, u, 1);
    assert [failed, u][1..] == [u];
    var c := Do(b, other);
    HandleOne(c, 1, failed, u, u, [], 3);
    var once := Failing(u, At(3));
    var d := Do(c, second);
    HandleOne(d, 0, failed, once, u, [], 4);
    var twice := Failing(once, At(4));
    var e := Do(d, third);
    RunFive(w, PAGE, first, other, second, third);
    assert e.published == (([] + [failed]) + [once]) + [twice];
    PublishedSnoc(([] + [failed]) + [once], twice, "u");
    PublishedSnoc([] + [failed], once, "u");
    PublishedSnoc([], failed, "u");
    NothingPublished("u");
    assert "t"[0] != "u"[0];
  }

  lemma NothingPublished(id: string)
    ensures Published([], id) == 0
  {
  }

  lemma RunFive(w: World, a: Action, b: Action, c: Action, d: Action, e: Action)
    ensures RunAll(w, [a, b, c, d, e]) == Do(Do(Do(Do(Do(w, a), b), c), d), e)
  {
    hide Do, RunAll;
    RunThree(w, a, b, c);
    RunSnoc(w, [a, b, c], d);
    RunSnoc(w, [a, b, c, d], e);
    assert [a, b, c, d] == [a, b, c] + [d] && [a, b, c, d, e] == [a, b, c, d] + [e];
  }
}
