/** The SQLite key-value store: rows with an optional deadline, deleted lazily or by a timer. */
module KvStore {
  import opened Wrappers

  /** One row of `kv`; None is a NULL expires_at. */
  datatype Row = Row(value: string, expiresAt: Option<int>)

  type Table = map<string, Row>

  const NO_EXPIRY := -1
  const NO_KEY := -2

  predicate Lapsed(r: Row, now: int) {
    r.expiresAt.Some? && r.expiresAt.value <= now
  }

  /** The entries an expiring map holds at a clock value. */
  function Live(kv: Table, now: int): Table {
    map k | k in kv && !Lapsed(kv[k], now) :: kv[k]
  }

  datatype Op =
    | Get(key: string)
    | Set(key: string, value: string, ttl: Option<int>)
    | Del(key: string)
    | Has(key: string)
    | Keys
    | Expire(key: string, ttlMs: int)
    | Ttl(key: string)
    | Purge

  /** What a caller sees; the timer ignores how many rows a purge removed. */
  datatype Obs = Value(value: Option<string>) | Flag(flag: bool) | KeySet(keys: set<string>) | Millis(ms: int) | Done

  /** The row is read, then deleted if its deadline has passed. */
  function LazyDelete(kv: Table, key: string, now: int): Table {
    if key in kv && Lapsed(kv[key], now) then kv - {key} else kv
  }

  /** One call on the physical table, reading the clock once. */
  function Exec(kv: Table, op: Op, now: int): (Table, Obs) {
    match op
    case Get(key) =>
      (LazyDelete(kv, key, now), Value(if key in kv && !Lapsed(kv[key], now) then Some(kv[key].value) else None))
    case Set(key, value, ttlMs) =>
      (kv[key := Row(value, if ttlMs.Some? then Some(now + ttlMs.value) else None)], Done)
    case Del(key) => (kv - {key}, Done)
    case Has(key) => (kv, Flag(key in kv && !Lapsed(kv[key], now)))
    case Keys => (kv, KeySet(set k | k in kv && !Lapsed(kv[k], now)))
    case Expire(key, ttlMs) =>
      if key in kv then (kv[key := kv[key].(expiresAt := Some(now + ttlMs))], Flag(true)) else (kv, Flag(false))
    case Ttl(key) =>
      (LazyDelete(kv, key, now),
       Millis(if key !in kv || Lapsed(kv[key], now) then NO_KEY
              else if kv[key].expiresAt.None? then NO_EXPIRY
              else kv[key].expiresAt.value - now))
    case Purge => (Live(kv, now), Done)
  }

  lemma PurgeCounts(kv: Table, lapsed: set<string>, now: int)
    requires lapsed == set k | k in kv && Lapsed(kv[k], now)
    ensures kv - lapsed == Live(kv, now) && |lapsed| == |kv| - |Live(kv, now)|
  {
    var live := Live(kv, now);
    assert kv.Keys == live.Keys + lapsed && live.Keys !! lapsed;
    assert |kv.Keys| == |live.Keys| + |lapsed|;
  }

  class SqliteKvStore {
    var kv: Table

    constructor (file: Table)
      ensures kv == file
    {
      kv := file;
    }

    method Get(key: string, now: int) returns (value: Option<string>)
      modifies this
      ensures (kv, Obs.Value(value)) == Exec(old(kv), Op.Get(key), now)
    {
      if key !in kv {
        return None;
      }
      var row := kv[key];
      if row.expiresAt.Some? && row.expiresAt.value <= now {
        kv := kv - {key};
        return None;
      }
      return Some(row.value);
    }

    method Set(key: string, value: string, ttlMs: Option<int>, now: int)
      modifies this
      ensures (kv, Done) == Exec(old(kv), Op.Set(key, value, ttlMs), now)
    {
      var expiresAt := if ttlMs.Some? then Some(now + ttlMs.value) else None;
      kv := kv[key := Row(value, expiresAt)];
    }

    method Del(key: string)
      modifies this
      ensures kv == old(kv) - {key}
    {
      kv := kv - {key};
    }

    method Has(key: string, now: int) returns (present: bool)
      ensures (kv, Flag(present)) == Exec(kv, Op.Has(key), now)
    {
      present := key in kv && (kv[key].expiresAt.None? || kv[key].expiresAt.value > now);
    }

    method Keys(now: int) returns (keys: set<string>)
      ensures (kv, KeySet(keys)) == Exec(kv, Op.Keys, now)
    {
      keys := set k | k in kv && (kv[k].expiresAt.None? || kv[k].expiresAt.value > now);
      assert keys == set k | k in kv && !Lapsed(kv[k], now);
    }

    method Expire(key: string, ttlMs: int, now: int) returns (changed: bool)
      modifies this
      ensures (kv, Flag(changed)) == Exec(old(kv), Op.Expire(key, ttlMs), now)
    {
      var expiresAt := now + ttlMs;
      changed := key in kv;
      if changed {
        kv := kv[key := kv[key].(expiresAt := Some(expiresAt))];
      }
    }

    method Ttl(key: string, now: int) returns (remaining: int)
      modifies this
      ensures (kv, Millis(remaining)) == Exec(old(kv), Op.Ttl(key), now)
      ensures remaining == if key !in old(kv) then -2
                           else if old(kv)[key].expiresAt.None? then -1
                           else if old(kv)[key].expiresAt.value <= now then -2
                           else old(kv)[key].expiresAt.value - now
    {
      if key !in kv {
        return NO_KEY;
      }
      var row := kv[key];
      if row.expiresAt.None? {
        return NO_EXPIRY;
      }
      remaining := row.expiresAt.value - now;
      if remaining <= 0 {
        kv := kv - {key};
        return NO_KEY;
      }
    }

    method PurgeExpired(now: int) returns (changes: nat)
      modifies this
      ensures (kv, Done) == Exec(old(kv), Op.Purge, now)
      ensures changes == |old(kv)| - |kv|
    {
      var lapsed := set k | k in kv && Lapsed(kv[k], now);
      PurgeCounts(kv, lapsed, now);
      kv := kv - lapsed;
      changes := |lapsed|;
    }
  }
}
