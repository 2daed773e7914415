/** The storage adapter over the key-value store: read-modify-write counters and glob key listing. */
module StorageAdapter {
  import opened Wrappers
  import opened JsText
  import opened KvStore
  import GlobLike

  datatype Result<+T> = Ok(value: T) | NotConnected | NotAnInteger

  datatype SetOptions = SetOptions(ttlSeconds: Option<int>, ifNotExists: bool, ifExists: bool)

  /** One `incrBy`: `get`, `ttl` and `set` each read the clock. */
  datatype Incr = Incr(amount: int, getAt: int, ttlAt: int, setAt: int)

  function IncrBy(kv: Table, key: string, call: Incr): (Table, Result<int>) {
    var current := Exec(kv, Get(key), call.getAt);
    var parsed := match current.1.value case None => Some(0) case Some(text) => ParseInt(text);
    if parsed.None? then (current.0, NotAnInteger)
    else
      var next := parsed.value + call.amount;
      var remaining := Exec(current.0, Ttl(key), call.ttlAt);
      var ttl := if remaining.1.ms > 0 then Some(remaining.1.ms) else None;
      (Exec(remaining.0, Set(key, IntText(next), ttl), call.setAt).0, Ok(next))
  }

  class SqliteStorageAdapter {
    const kvStore: SqliteKvStore
    var connected: bool

    constructor (kvStore: SqliteKvStore)
      ensures this.kvStore == kvStore && !connected
    {
      this.kvStore := kvStore;
      connected := false;
    }

    method Connect()
      modifies this
      ensures connected
    {
      connected := true;
    }

    method IncrementBy(key: string, call: Incr) returns (r: Result<int>)
      modifies kvStore
      ensures !connected ==> r == NotConnected && kvStore.kv == old(kvStore.kv)
      ensures connected ==> (kvStore.kv, r) == IncrBy(old(kvStore.kv), key, call)
    {
      if !connected {
        return NotConnected;
      }
      var current := kvStore.Get(key, call.getAt);
      var base := 0;
      if current.Some? {
        var parsed := ParseInt(current.value);
        if parsed.None? {
          return NotAnInteger;
        }
        base := parsed.value;
      }
      var next := base + call.amount;
      var remainingMs := kvStore.Ttl(key, call.ttlAt);
      kvStore.Set(key, IntText(next), if remainingMs > 0 then Some(remainingMs) else None, call.setAt);
      return Ok(next);
    }

    /** `doSet`: the presence test and the write read the clock separately. */
    method DoSet(key: string, value: string, options: SetOptions, hasAt: int, setAt: int)
      modifies kvStore
      ensures var present := key in Live(old(kvStore.kv), hasAt);
              kvStore.kv ==
                if (options.ifNotExists && present) || (options.ifExists && !present) then old(kvStore.kv)
                else old(kvStore.kv)[key := Row(value, if options.ttlSeconds.None? then None
                                                       else Some(setAt + options.ttlSeconds.value * 1000))]
    {
      if options.ifNotExists {
        var present := kvStore.Has(key, hasAt);
        if present {
          return;
        }
      }
      if options.ifExists {
        var present := kvStore.Has(key, hasAt);
        if !present {
          return;
        }
      }
      var ttlMs := if options.ttlSeconds.Some? then Some(options.ttlSeconds.value * 1000) else None;
      kvStore.Set(key, value, ttlMs, setAt);
    }

    /** The live keys a pattern selects; `GlobLike.GlobAgreesIff` says when that is the glob's own meaning. */
    method KeysMatching(pattern: string, now: int) returns (r: Result<set<string>>)
      ensures !connected ==> r == NotConnected
      ensures connected ==> r == Ok(set k | k in Live(kvStore.kv, now) && GlobLike.Selects(pattern, k))
    {
      if !connected {
        return NotConnected;
      }
      var keys := kvStore.Keys(now);
      assert keys == Live(kvStore.kv, now).Keys;
      if pattern == "*" {
        assert keys == set k | k in Live(kvStore.kv, now) && GlobLike.Selects(pattern, k);
        return Ok(keys);
      }
      var like := GlobLike.Translate(pattern);
      if like == "" {
        assert keys == set k | k in Live(kvStore.kv, now) && GlobLike.Selects(pattern, k);
        return Ok(keys);
      }
      var matching := set k | k in keys && GlobLike.Matches(GlobLike.LikePattern(like), k);
      assert matching == set k | k in Live(kvStore.kv, now) && GlobLike.Selects(pattern, k);
      return Ok(matching);
    }
  }

  // ---------------------------------------------------------------- counters over whole runs

  ghost predicate Timed(calls: seq<Incr>, t: int) {
    calls != [] ==>
      && t <= calls[0].getAt <= calls[0].ttlAt <= calls[0].setAt
      && Timed(calls[1..], calls[0].setAt)
  }

  function RunIncr(kv: Table, key: string, calls: seq<Incr>): Table
    decreases |calls|
  {
    if calls == [] then kv else RunIncr(IncrBy(kv, key, calls[0]).0, key, calls[1..])
  }

  function SumAmounts(calls: seq<Incr>): int {
    if calls == [] then 0 else calls[0].amount + SumAmounts(calls[1..])
  }

  /** How far a run pushes a deadline out: the time each call spends between its `ttl` and its `set`. */
  function Drift(calls: seq<Incr>): int {
    if calls == [] then 0 else calls[0].setAt - calls[0].ttlAt + Drift(calls[1..])
  }

  /** The guard on each call: its `ttl` read comes before the deadline the key then has. */
  predicate InTime(deadline: int, calls: seq<Incr>)
    decreases |calls|
  {
    calls != [] ==>
      && calls[0].ttlAt < deadline
      && InTime(deadline + calls[0].setAt - calls[0].ttlAt, calls[1..])
  }

  /** One call on a live integer key adds the amount, and keeps the deadline exactly when it is still
      ahead at the `ttl` read: passing between the `get` and the `ttl` makes the key permanent. */
  lemma IncrLive(kv: Table, key: string, call: Incr)
    requires key in kv && !Lapsed(kv[key], call.getAt) && ParseInt(kv[key].value).Some?
    requires call.getAt <= call.ttlAt <= call.setAt
    ensures var next := ParseInt(kv[key].value).value + call.amount;
            var deadline := kv[key].expiresAt;
            && IncrBy(kv, key, call).1 == Ok(next)
            && IncrBy(kv, key, call).0 ==
                 kv[key := Row(IntText(next),
                               if deadline.Some? && call.ttlAt < deadline.value
                               then Some(deadline.value + (call.setAt - call.ttlAt)) else None)]
            && ParseInt(IntText(next)) == Some(next)
  {
    hide ParseInt, IntText;
    ParseIntOfText(ParseInt(kv[key].value).value + call.amount);
  }

  /** One call on a key that has lapsed by its `get` starts over from zero, without a deadline. */
  lemma IncrLapsed(kv: Table, key: string, call: Incr)
    requires key in kv && Lapsed(kv[key], call.getAt)
    ensures IncrBy(kv, key, call).1 == Ok(call.amount)
    ensures var end := IncrBy(kv, key, call).0;
            key in end && end[key].expiresAt.None? && ParseInt(end[key].value) == Some(call.amount)
  {
    hide ParseInt, IntText;
    ParseIntOfText(call.amount);
  }

  /** A call fails exactly on a live value that is no number, and then it leaves the table alone; on any key that is absent
      it starts from zero. Other keys are never touched. */
  lemma IncrFailsIff(kv: Table, key: string, call: Incr)
    ensures var (end, r) := IncrBy(kv, key, call);
            && end - {key} == kv - {key}
            && (r.NotAnInteger? <==>
                  key in kv && (kv[key].expiresAt.Some? ==> call.getAt < kv[key].expiresAt.value)
                  && ParseInt(kv[key].value).None?)
            && (r.NotAnInteger? ==> end == kv)
            && (!r.NotAnInteger? ==> r.Ok? && key in end && ParseInt(end[key].value) == Some(r.value))
            && (key !in kv ==> r == Ok(call.amount) && end[key].expiresAt.None?)
  {
    var parsed := if key in kv && !Lapsed(kv[key], call.getAt) then ParseInt(kv[key].value) else Some(0);
    if parsed.Some? {
      ParseIntOfText(parsed.value + call.amount);
    }
    IncrTouchesOneKey(kv, key, call);
    hide ParseInt, IntText;
  }

  /** A key without a deadline counts up for ever. */
  lemma {:induction false} PermanentCounts(kv: Table, key: string, calls: seq<Incr>, start: int, t: int)
    requires key in kv && kv[key].expiresAt.None? && ParseInt(kv[key].value) == Some(start) && Timed(calls, t)
    ensures var end := RunIncr(kv, key, calls);
            && key in end && end[key].expiresAt.None?
            && ParseInt(end[key].value) == Some(start + SumAmounts(calls))
    decreases |calls|
  {
    hide IncrBy, ParseInt, IntText;
    if calls != [] {
      IncrLive(kv, key, calls[0]);
      PermanentCounts(IncrBy(kv, key, calls[0]).0, key, calls[1..], start + calls[0].amount, calls[0].setAt);
    }
  }

  /** Over any run on a live integer key, the value is the start plus every amount and the deadline moves
      later by exactly the drift, provided each call reads `ttl` in time. */
  lemma {:induction false} CountsInTime(kv: Table, key: string, calls: seq<Incr>, start: int, deadline: int, t: int)
    requires key in kv && kv[key].expiresAt == Some(deadline) && ParseInt(kv[key].value) == Some(start)
    requires Timed(calls, t) && InTime(deadline, calls)
    ensures var end := RunIncr(kv, key, calls);
            && key in end
            && end[key].expiresAt == Some(deadline + Drift(calls)) && Drift(calls) >= 0
            && ParseInt(end[key].value) == Some(start + SumAmounts(calls))
            && end - {key} == kv - {key}
    decreases |calls|
  {
    hide IncrBy, ParseInt, IntText;
    if calls != [] {
      IncrLive(kv, key, calls[0]);
      var next := IncrBy(kv, key, calls[0]).0;
      assert next - {key} == kv - {key};
      CountsInTime(next, key, calls[1..], start + calls[0].amount, deadline + calls[0].setAt - calls[0].ttlAt,
                   calls[0].setAt);
    }
  }

  /** And the run keeps a deadline at all exactly when every call is in time; one late call makes the key permanent. */
  lemma {:induction false} DeadlineSurvivesIff(kv: Table, key: string, calls: seq<Incr>, start: int, deadline: int, t: int)
    requires key in kv && kv[key].expiresAt == Some(deadline) && ParseInt(kv[key].value) == Some(start)
    requires Timed(calls, t)
    ensures var end := RunIncr(kv, key, calls);
            key in end && (end[key].expiresAt.Some? <==> InTime(deadline, calls))
    decreases |calls|
  {
    hide IncrBy, ParseInt, IntText;
    if calls != [] {
      var call := calls[0];
      var next := IncrBy(kv, key, call).0;
      if call.ttlAt < deadline {
        IncrLive(kv, key, call);
        DeadlineSurvivesIff(next, key, calls[1..], start + call.amount, deadline + call.setAt - call.ttlAt, call.setAt);
      } else if call.getAt < deadline {
        IncrLive(kv, key, call);
        PermanentCounts(next, key, calls[1..], start + call.amount, call.setAt);
      } else {
        IncrLapsed(kv, key, call);
        PermanentCounts(next, key, calls[1..], call.amount, call.setAt);
      }
    }
  }

  // ---------------------------------------------------------------- every run

  /** The deadline a call leaves: pushed out by its own delay, or gone if it passes before the `ttl` read. */
  function DeadlineAfter(deadline: Option<int>, call: Incr): Option<int> {
    if deadline.Some? && call.ttlAt < deadline.value then Some(deadline.value + (call.setAt - call.ttlAt)) else None
  }

  /** The guard on the value: each `get` comes before the deadline then in force, if there is one. */
  predicate Alive(deadline: Option<int>, calls: seq<Incr>)
    decreases |calls|
  {
    calls != [] ==>
      && (deadline.Some? ==> calls[0].getAt < deadline.value)
      && Alive(DeadlineAfter(deadline, calls[0]), calls[1..])
  }

  /** The first call whose `get` comes too late. */
  function FirstLapse(deadline: Option<int>, calls: seq<Incr>): (k: nat)
    requires !Alive(deadline, calls)
    ensures k < |calls|
    decreases |calls|
  {
    if deadline.Some? && calls[0].getAt >= deadline.value then 0
    else 1 + FirstLapse(DeadlineAfter(deadline, calls[0]), calls[1..])
  }

  lemma {:induction false} PermanentIsAlive(calls: seq<Incr>)
    ensures Alive(None, calls)
    decreases |calls|
  {
    if calls != [] {
      PermanentIsAlive(calls[1..]);
    }
  }

  /** Over every run on an integer key: the value is the start plus every amount if each call finds the key alive, even
      where its deadline passes between the `get` and the `ttl` read, and otherwise the sum from the first call that
      does not; the deadline survives, pushed out by the drift, exactly when every call is in time. */
  lemma {:induction false} RunCounts(kv: Table, key: string, calls: seq<Incr>, start: int, t: int)
    requires key in kv && ParseInt(kv[key].value) == Some(start) && Timed(calls, t)
    ensures var end := RunIncr(kv, key, calls);
            var deadline := kv[key].expiresAt;
            && key in end
            && ParseInt(end[key].value) == Some(if Alive(deadline, calls) then start + SumAmounts(calls)
                                                else SumAmounts(calls[FirstLapse(deadline, calls)..]))
            && end[key].expiresAt == (if deadline.Some? && InTime(deadline.value, calls)
                                      then Some(deadline.value + Drift(calls)) else None)
            && end - {key} == kv - {key}
    decreases |calls|
  {
    hide IncrBy, ParseInt, IntText;
    if calls != [] {
      var call := calls[0];
      var next := IncrBy(kv, key, call).0;
      if Lapsed(kv[key], call.getAt) {
        IncrLapsed(kv, key, call);
        RunCounts(next, key, calls[1..], call.amount, call.setAt);
        PermanentIsAlive(calls[1..]);
        IncrTouchesOneKey(kv, key, call);
      } else {
        IncrLive(kv, key, call);
        RunCounts(next, key, calls[1..], start + call.amount, call.setAt);
        if !Alive(kv[key].expiresAt, calls) {
          var k := FirstLapse(next[key].expiresAt, calls[1..]);
          assert calls[1..][k..] == calls[k + 1..];
        }
      }
    }
  }

  lemma IncrTouchesOneKey(kv: Table, key: string, call: Incr)
    ensures IncrBy(kv, key, call).0 - {key} == kv - {key}
  {
    hide ParseInt, IntText;
  }
}
