/** The key-value store refines a map whose entries vanish at their deadline, save for one operation. */
module TtlMap {
  import opened Wrappers
  import opened KvStore

  /** The abstract map: entries are dropped the moment they lapse, and only live ones exist. */
  function Step(m: Table, op: Op, now: int): (Table, Obs) {
    var live := Live(m, now);
    match op
    case Get(key) => (live, Value(if key in live then Some(live[key].value) else None))
    case Set(key, value, ttlMs) =>
      (Live(live[key := Row(value, if ttlMs.Some? then Some(now + ttlMs.value) else None)], now), Done)
    case Del(key) => (live - {key}, Done)
    case Has(key) => (live, Flag(key in live))
    case Keys => (live, KeySet(live.Keys))
    case Expire(key, ttlMs) =>
      if key in live
      then (Live(live[key := live[key].(expiresAt := Some(now + ttlMs))], now), Flag(true))
      else (live, Flag(false))
    case Ttl(key) =>
      (live, Millis(if key !in live then NO_KEY
                    else if live[key].expiresAt.None? then NO_EXPIRY
                    else live[key].expiresAt.value - now))
    case Purge => (live, Done)
  }

  datatype Call = Call(op: Op, now: int)

  function PhysicalObs(kv: Table, calls: seq<Call>): seq<Obs>
    decreases |calls|
  {
    if calls == [] then []
    else
      var (kv', obs) := Exec(kv, calls[0].op, calls[0].now);
      [obs] + PhysicalObs(kv', calls[1..])
  }

  function AbstractObs(m: Table, calls: seq<Call>): seq<Obs>
    decreases |calls|
  {
    if calls == [] then []
    else
      var (m', obs) := Step(m, calls[0].op, calls[0].now);
      [obs] + AbstractObs(m', calls[1..])
  }

  /** The guard that tells the two apart: `expire` on a row that has lapsed but is still in the file. */
  predicate Revives(kv: Table, op: Op, now: int) {
    op.Expire? && op.key in kv && Lapsed(kv[op.key], now)
  }

  predicate NeverRevives(kv: Table, calls: seq<Call>)
    decreases |calls|
  {
    calls != [] ==>
      && !Revives(kv, calls[0].op, calls[0].now)
      && NeverRevives(Exec(kv, calls[0].op, calls[0].now).0, calls[1..])
  }

  predicate Monotone(calls: seq<Call>, t: int)
    decreases |calls|
  {
    calls != [] ==> t <= calls[0].now && Monotone(calls[1..], calls[0].now)
  }

  lemma LiveLater(kv: Table, t: int, t': int)
    requires t <= t'
    ensures Live(Live(kv, t), t') == Live(kv, t')
  {
  }

  /** One call agrees with the abstract map, in its answer and in the entries it leaves,
      exactly when it does not revive a lapsed row. */
  lemma CallAgreesIff(kv: Table, m: Table, op: Op, now: int)
    requires Live(m, now) == Live(kv, now)
    ensures Exec(kv, op, now).1 == Step(m, op, now).1 <==> !Revives(kv, op, now)
    ensures !Revives(kv, op, now) ==> Live(Exec(kv, op, now).0, now) == Step(m, op, now).0
  {
    var kv', m' := Exec(kv, op, now).0, Step(m, op, now).0;
    var live := Live(kv, now);
    match op
    case Keys => assert (set k | k in kv && !Lapsed(kv[k], now)) == live.Keys;
    case Expire(key, ttlMs) =>
      if key in live {
        assert forall k :: k != key ==> (k in Live(kv', now) <==> k in live);
      }
    case _ =>
  }

  /** Over every run with a non-decreasing clock, whatever purges are interleaved, the store answers as the
      abstract map does exactly when no `expire` meets a lapsed row that is still stored. */
  lemma {:induction false} RefinesIff(kv: Table, m: Table, calls: seq<Call>, t: int)
    requires Monotone(calls, t) && Live(m, t) == Live(kv, t)
    ensures PhysicalObs(kv, calls) == AbstractObs(m, calls) <==> NeverRevives(kv, calls)
    decreases |calls|
  {
    if calls != [] {
      var Call(op, now) := calls[0];
      LiveLater(kv, t, now);
      LiveLater(m, t, now);
      CallAgreesIff(kv, m, op, now);
      var (kv', obs) := Exec(kv, op, now);
      var (m', obs') := Step(m, op, now);
      var rest, rest' := PhysicalObs(kv', calls[1..]), AbstractObs(m', calls[1..]);
      assert PhysicalObs(kv, calls) == [obs] + rest && AbstractObs(m, calls) == [obs'] + rest';
      if Revives(kv, op, now) {
        assert ([obs] + rest)[0] != ([obs'] + rest')[0];
      } else {
        StepIsLive(m, op, now);
        RefinesIff(kv', m', calls[1..], now);
        assert ([obs] + rest)[1..] == rest && ([obs'] + rest')[1..] == rest';
      }
    }
  }

  lemma StepIsLive(m: Table, op: Op, now: int)
    ensures Live(Step(m, op, now).0, now) == Step(m, op, now).0
  {
    LiveLater(m, now, now);
  }

  /** Purging at any moment changes no later answer, until an `expire` would have revived a purged row. */
  lemma PurgeIsUnobservable(kv: Table, calls: seq<Call>, t: int)
    requires Monotone(calls, t) && NeverRevives(kv, calls)
    ensures PhysicalObs(Live(kv, t), calls) == PhysicalObs(kv, calls)
  {
    LiveLater(kv, t, t);
    PurgedNeverRevives(kv, Live(kv, t), calls, t);
    RefinesIff(kv, Live(kv, t), calls, t);
    RefinesIff(Live(kv, t), Live(kv, t), calls, t);
  }

  /** A table with fewer lapsed rows revives no more than the table it was purged from. */
  lemma {:induction false} PurgedNeverRevives(kv: Table, purged: Table, calls: seq<Call>, t: int)
    requires Monotone(calls, t) && NeverRevives(kv, calls)
    requires purged.Keys <= kv.Keys && Live(purged, t) == Live(kv, t)
    requires forall k :: k in purged ==> purged[k] == kv[k]
    ensures NeverRevives(purged, calls)
    decreases |calls|
  {
    if calls != [] {
      var Call(op, now) := calls[0];
      LiveLater(kv, t, now);
      LiveLater(purged, t, now);
      CallAgreesIff(kv, Live(kv, now), op, now);
      LiveLater(kv, now, now);
      CallAgreesIff(purged, Live(kv, now), op, now);
      PurgedNeverRevives(Exec(kv, op, now).0, Exec(purged, op, now).0, calls[1..], now);
    }
  }

  /** A lapsed key that the timer has not reached comes back to life. */
  lemma ExpireCanRevive()
    ensures var kv: Table := map["k" := Row("v", Some(5))];
            var calls := [Call(Op.Get("other"), 9), Call(Op.Expire("k", 10), 9), Call(Op.Has("k"), 9)];
            && PhysicalObs(kv, calls)[2] == Flag(true)
            && AbstractObs(kv, calls)[2] == Flag(false)
  {
    var kv: Table := map["k" := Row("v", Some(5))];
    var calls := [Call(Op.Get("other"), 9), Call(Op.Expire("k", 10), 9), Call(Op.Has("k"), 9)];
    assert calls[1..] == [calls[1], calls[2]] && [calls[1], calls[2]][1..] == [calls[2]];
    assert Exec(kv, calls[0].op, 9).0 == kv;
    assert Step(kv, calls[0].op, 9).0 == map[];
  }
}
