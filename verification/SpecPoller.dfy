/** The OpenAPI spec poller: conditional fetches, a retry loop, and a health state. */
module SpecPoller {
  import opened Wrappers

  datatype Health = Unknown | Healthy | Unhealthy

  datatype Retry = Retry(maxRetries: int, initialDelayMs: real, maxDelayMs: real, backoffMultiplier: real)

  /** `conditional` is every change-detection mode but 'content-hash'; `hash` stands for SHA-256 in hex. */
  datatype Config = Config(conditional: bool, retry: Retry, unhealthyThreshold: int, hash: string -> string)

  datatype State = State(
    lastHash: Option<string>,
    lastEtag: Option<string>,
    lastModified: Option<string>,
    consecutiveFailures: nat,
    isPolling: bool,
    wasUnhealthy: bool,
    health: Health)

  const INITIAL := State(None, None, None, 0, false, false, Unknown)

  /** How one fetch ends. `BodyLost`: the headers arrived and reading the body failed. */
  datatype Reply =
    | NetworkError
    | HttpError
    | NotModified
    | Body(etag: Option<string>, lastModified: Option<string>, body: string)
    | BodyLost(etag: Option<string>, lastModified: Option<string>)

  /** Callbacks, in the order they are made. */
  datatype Event =
    | OnChanged(body: string, hash: string)
    | OnUnchanged
    | OnError
    | OnUnhealthy(failures: nat)
    | OnRecovered

  predicate Truthy(o: Option<string>) {
    o.Some? && o.value != ""
  }

  /** If-None-Match and If-Modified-Since of the next request. */
  function Conditions(cfg: Config, s: State): (Option<string>, Option<string>) {
    (if cfg.conditional && Truthy(s.lastEtag) then s.lastEtag else None,
     if cfg.conditional && Truthy(s.lastModified) then s.lastModified else None)
  }

  function SaveValidators(s: State, etag: Option<string>, lastModified: Option<string>): State {
    s.(lastEtag := if Truthy(etag) then etag else s.lastEtag,
       lastModified := if Truthy(lastModified) then lastModified else s.lastModified)
  }

  datatype Fetched = Fetched(state: State, events: seq<Event>, ok: bool)

  /** `doFetch`: not ok is an exception. */
  function DoFetch(cfg: Config, s: State, reply: Reply): Fetched {
    match reply
    case NetworkError | HttpError => Fetched(s, [], false)
    case NotModified => Fetched(s, [OnUnchanged], true)
    case BodyLost(etag, lastModified) => Fetched(SaveValidators(s, etag, lastModified), [], false)
    case Body(etag, lastModified, body) =>
      var saved := SaveValidators(s, etag, lastModified);
      var hash := cfg.hash(body);
      if Truthy(s.lastHash) && s.lastHash.value == hash then Fetched(saved, [OnUnchanged], true)
      else Fetched(saved.(lastHash := Some(hash)), [OnChanged(body, hash)], true)
  }

  /** What the retry loop does after a fetch that worked. */
  function Succeed(s: State): (State, seq<Event>) {
    if s.consecutiveFailures > 0 && s.wasUnhealthy
    then (s.(consecutiveFailures := 0, wasUnhealthy := false, health := Healthy), [OnRecovered])
    else (s.(consecutiveFailures := 0, health := Healthy), [])
  }

  /** And after the last attempt of a cycle fails. */
  function GiveUp(cfg: Config, s: State): (State, seq<Event>) {
    var failed := s.(consecutiveFailures := s.consecutiveFailures + 1);
    if failed.consecutiveFailures >= cfg.unhealthyThreshold && !s.wasUnhealthy
    then (failed.(wasUnhealthy := true, health := Unhealthy), [OnError, OnUnhealthy(failed.consecutiveFailures)])
    else (failed, [OnError])
  }

  function Pow(b: real, n: nat): real {
    if n == 0 then 1.0 else b * Pow(b, n - 1)
  }

  function Delay(r: Retry, attempt: nat): real {
    var d := r.initialDelayMs * Pow(r.backoffMultiplier, attempt);
    if d < r.maxDelayMs then d else r.maxDelayMs
  }

  datatype Cycle = Cycle(state: State, events: seq<Event>, fetches: nat, delays: seq<real>)

  /** `fetchWithRetry` from one attempt on; `replies` is what the network answers to each attempt. */
  function Attempts(cfg: Config, s: State, replies: nat -> Reply, attempt: nat): Cycle
    decreases cfg.retry.maxRetries + 1 - attempt
  {
    if attempt > cfg.retry.maxRetries then Cycle(s, [], 0, [])
    else
      var f := DoFetch(cfg, s, replies(attempt));
      if f.ok then
        var (done, events) := Succeed(f.state);
        Cycle(done, f.events + events, 1, [])
      else if attempt == cfg.retry.maxRetries then
        var (done, events) := GiveUp(cfg, f.state);
        Cycle(done, f.events + events, 1, [])
      else
        var rest := Attempts(cfg, f.state, replies, attempt + 1);
        Cycle(rest.state, f.events + rest.events, 1 + rest.fetches, [Delay(cfg.retry, attempt)] + rest.delays)
  }

  /** `poll` while no other cycle runs. */
  function PollCycle(cfg: Config, s: State, replies: nat -> Reply): Cycle {
    if s.isPolling then Cycle(s, [], 0, [])
    else
      var c := Attempts(cfg, s.(isPolling := true), replies, 0);
      c.(state := c.state.(isPolling := false))
  }

  /** What a cycle still has to do makes up the rest of the whole. */
  ghost predicate Continues(all: Cycle, rest: Cycle, before: seq<Event>, trace: seq<Event>, fetches: nat,
                            delays: seq<real>)
  {
    && all.state == rest.state && before + all.events == trace + rest.events
    && all.fetches == fetches + rest.fetches && all.delays == delays + rest.delays
  }

  lemma AttemptUnfolds(cfg: Config, s: State, replies: nat -> Reply, attempt: nat)
    ensures var c, f := Attempts(cfg, s, replies, attempt), DoFetch(cfg, s, replies(attempt));
            if attempt > cfg.retry.maxRetries then c == Cycle(s, [], 0, [])
            else if f.ok then
              var (done, events) := Succeed(f.state);
              c == Cycle(done, f.events + events, 1, [])
            else if attempt == cfg.retry.maxRetries then
              var (done, events) := GiveUp(cfg, f.state);
              c == Cycle(done, f.events + events, 1, [])
            else
              var rest := Attempts(cfg, f.state, replies, attempt + 1);
              c == Cycle(rest.state, f.events + rest.events, 1 + rest.fetches, [Delay(cfg.retry, attempt)] + rest.delays)
  {
    hide DoFetch, Succeed, GiveUp, Delay;
  }

  class OpenApiSpecPoller {
    const cfg: Config
    var state: State
    var trace: seq<Event>

    constructor (cfg: Config)
      ensures this.cfg == cfg && state == INITIAL && trace == []
    {
      this.cfg := cfg;
      state := INITIAL;
      trace := [];
    }

    method FetchOnce(reply: Reply) returns (ok: bool)
      modifies this
      ensures var f := DoFetch(cfg, old(state), reply);
              state == f.state && trace == old(trace) + f.events && ok == f.ok
    {
      if reply.NetworkError? || reply.HttpError? {
        return false;
      }
      if reply.NotModified? {
        trace := trace + [OnUnchanged];
        return true;
      }
      if Truthy(reply.etag) {
        state := state.(lastEtag := reply.etag);
      }
      if Truthy(reply.lastModified) {
        state := state.(lastModified := reply.lastModified);
      }
      if reply.BodyLost? {
        return false;
      }
      var hash := cfg.hash(reply.body);
      if Truthy(state.lastHash) && state.lastHash.value == hash {
        trace := trace + [OnUnchanged];
        return true;
      }
      state := state.(lastHash := Some(hash));
      trace := trace + [OnChanged(reply.body, hash)];
      return true;
    }

    method FetchWithRetry(replies: nat -> Reply) returns (fetches: nat, delays: seq<real>)
      modifies this
      ensures var c := Attempts(cfg, old(state), replies, 0);
              state == c.state && trace == old(trace) + c.events && fetches == c.fetches && delays == c.delays
    {
      hide DoFetch, Succeed, GiveUp, Delay, Attempts;
      fetches, delays := 0, [];
      var attempt: nat := 0;
      ghost var all := Attempts(cfg, state, replies, 0);
      while attempt <= cfg.retry.maxRetries
        invariant Continues(all, Attempts(cfg, state, replies, attempt), old(trace), trace, fetches, delays)
        decreases cfg.retry.maxRetries + 1 - attempt
      {
        AttemptUnfolds(cfg, state, replies, attempt);
        var ok := FetchOnce(replies(attempt));
        fetches := fetches + 1;
        if ok {
          Recover();
          return;
        }
        if attempt == cfg.retry.maxRetries {
          RecordFailure();
          return;
        }
        delays := delays + [Delay(cfg.retry, attempt)];
        attempt := attempt + 1;
      }
      AttemptUnfolds(cfg, state, replies, attempt);
    }

    method Recover()
      modifies this
      ensures var (done, events) := Succeed(old(state)); state == done && trace == old(trace) + events
    {
      if state.consecutiveFailures > 0 {
        state := state.(consecutiveFailures := 0);
        if state.wasUnhealthy {
          state := state.(wasUnhealthy := false, health := Healthy);
          trace := trace + [OnRecovered];
        }
      }
      state := state.(health := Healthy);
    }

    method RecordFailure()
      modifies this
      ensures var (done, events) := GiveUp(cfg, old(state)); state == done && trace == old(trace) + events
    {
      state := state.(consecutiveFailures := state.consecutiveFailures + 1);
      trace := trace + [OnError];
      if state.consecutiveFailures >= cfg.unhealthyThreshold && !state.wasUnhealthy {
        state := state.(wasUnhealthy := true, health := Unhealthy);
        trace := trace + [OnUnhealthy(state.consecutiveFailures)];
      }
    }

    method Poll(replies: nat -> Reply) returns (fetches: nat, delays: seq<real>)
      modifies this
      ensures var c := PollCycle(cfg, old(state), replies);
              state == c.state && trace == old(trace) + c.events && fetches == c.fetches && delays == c.delays
    {
      if state.isPolling {
        return 0, [];
      }
      state := state.(isPolling := true);
      fetches, delays := FetchWithRetry(replies);
      state := state.(isPolling := false);
    }
  }

  // ---------------------------------------------------------------- one cycle

  /** A cycle makes at most maxRetries + 1 fetches, with one delay between consecutive ones. */
  lemma {:induction false} CycleIsBounded(cfg: Config, s: State, replies: nat -> Reply, attempt: nat)
    ensures var c := Attempts(cfg, s, replies, attempt);
            && (attempt <= cfg.retry.maxRetries ==> 1 <= c.fetches <= cfg.retry.maxRetries + 1 - attempt)
            && (attempt > cfg.retry.maxRetries ==> c.fetches == 0)
            && |c.delays| == (if c.fetches == 0 then 0 else c.fetches - 1)
            && (forall i :: 0 <= i < |c.delays| ==> c.delays[i] == Delay(cfg.retry, attempt + i))
    decreases cfg.retry.maxRetries + 1 - attempt
  {
    hide DoFetch, Delay;
    if attempt < cfg.retry.maxRetries {
      CycleIsBounded(cfg, DoFetch(cfg, s, replies(attempt)).state, replies, attempt + 1);
    }
  }

  lemma FetchKeepsHealth(cfg: Config, s: State, reply: Reply)
    ensures var f := DoFetch(cfg, s, reply);
            && (f.ok <==> reply.NotModified? || reply.Body?)
            && f.state.consecutiveFailures == s.consecutiveFailures && f.state.wasUnhealthy == s.wasUnhealthy
            && (forall e :: e in f.events ==> e.OnChanged? || e.OnUnchanged?)
  {
  }

  /** A cycle ends with the first reply that brings content or says it is unchanged, and is healthy then; or it ends with
      its last attempt, as one more failure, unhealthy from the threshold on. */
  lemma {:induction false} CycleOutcome(cfg: Config, s: State, replies: nat -> Reply, attempt: nat)
    requires attempt <= cfg.retry.maxRetries && (s.wasUnhealthy ==> s.consecutiveFailures > 0)
    ensures var c := Attempts(cfg, s, replies, attempt);
            && c.fetches > 0
            && (forall j: nat :: attempt <= j < attempt + c.fetches - 1 ==>
                  !replies(j).NotModified? && !replies(j).Body?)
            && var last := replies(attempt + c.fetches - 1);
               if last.NotModified? || last.Body? then
                 && c.state.consecutiveFailures == 0 && c.state.health == Healthy && !c.state.wasUnhealthy
                 && (OnRecovered in c.events <==> s.wasUnhealthy) && OnError !in c.events
               else
                 && attempt + c.fetches == cfg.retry.maxRetries + 1
                 && c.state.consecutiveFailures == s.consecutiveFailures + 1 && OnError in c.events
                 && (c.state.wasUnhealthy <==> s.wasUnhealthy || s.consecutiveFailures + 1 >= cfg.unhealthyThreshold)
                 && (OnUnhealthy(s.consecutiveFailures + 1) in c.events <==> c.state.wasUnhealthy && !s.wasUnhealthy)
    decreases cfg.retry.maxRetries + 1 - attempt
  {
    hide Delay, DoFetch;
    FetchKeepsHealth(cfg, s, replies(attempt));
    var f := DoFetch(cfg, s, replies(attempt));
    if !f.ok && attempt < cfg.retry.maxRetries {
      CycleOutcome(cfg, f.state, replies, attempt + 1);
    }
  }

  /** The delays of a cycle, from its first: the initial delay, then each time the one before times the multiplier, up to
      the cap. */
  ghost predicate BacksOff(r: Retry, delays: seq<real>) {
    && (delays != [] ==> delays[0] == if r.initialDelayMs < r.maxDelayMs then r.initialDelayMs else r.maxDelayMs)
    && (forall i :: 0 < i < |delays| ==>
          delays[i] == if delays[i - 1] < r.maxDelayMs && r.backoffMultiplier * delays[i - 1] < r.maxDelayMs
                       then r.backoffMultiplier * delays[i - 1] else r.maxDelayMs)
  }

  /** One delay after another. */
  lemma DelayMultiplies(r: Retry, attempt: nat)
    requires r.backoffMultiplier >= 1.0 && r.initialDelayMs >= 0.0
    ensures Delay(r, 0) == if r.initialDelayMs < r.maxDelayMs then r.initialDelayMs else r.maxDelayMs
    ensures var d := Delay(r, attempt);
            Delay(r, attempt + 1) == if d < r.maxDelayMs && r.backoffMultiplier * d < r.maxDelayMs
                                     then r.backoffMultiplier * d else r.maxDelayMs
  {
    var p := Pow(r.backoffMultiplier, attempt);
    var d := r.initialDelayMs * p;
    PowAtLeastOne(r.backoffMultiplier, attempt);
    assert d >= 0.0;
    assert r.initialDelayMs * (r.backoffMultiplier * p) == r.backoffMultiplier * d;
    assert r.backoffMultiplier * d == d + (r.backoffMultiplier - 1.0) * d >= d;
  }

  lemma DelaysBackOff(r: Retry, delays: seq<real>)
    requires r.backoffMultiplier >= 1.0 && r.initialDelayMs >= 0.0
    requires forall i :: 0 <= i < |delays| ==> delays[i] == Delay(r, i)
    ensures BacksOff(r, delays)
  {
    DelayMultiplies(r, 0);
    forall i | 0 < i < |delays|
      ensures delays[i] == if delays[i - 1] < r.maxDelayMs && r.backoffMultiplier * delays[i - 1] < r.maxDelayMs
                           then r.backoffMultiplier * delays[i - 1] else r.maxDelayMs
    {
      DelayMultiplies(r, i - 1);
    }
  }

  /** A cycle waits for the initial delay first, and for the multiplied one before each further attempt, up to the cap. */
  lemma CycleBacksOff(cfg: Config, s: State, replies: nat -> Reply)
    requires cfg.retry.backoffMultiplier >= 1.0 && cfg.retry.initialDelayMs >= 0.0
    ensures BacksOff(cfg.retry, PollCycle(cfg, s, replies).delays)
  {
    hide DoFetch, Succeed, GiveUp, Delay, Attempts;
    CycleIsBounded(cfg, s.(isPolling := true), replies, 0);
    DelaysBackOff(cfg.retry, PollCycle(cfg, s, replies).delays);
  }

  lemma {:induction false} PowAtLeastOne(b: real, n: nat)
    requires b >= 1.0
    ensures 1.0 <= Pow(b, n) <= Pow(b, n + 1)
  {
    if n > 0 {
      PowAtLeastOne(b, n - 1);
      assert b * Pow(b, n - 1) >= 1.0 * Pow(b, n - 1);
    }
    assert b * Pow(b, n) >= 1.0 * Pow(b, n);
  }

  /** Backoff delays never shrink and never pass the cap. */
  lemma DelaysGrowToCap(r: Retry, attempt: nat)
    requires r.backoffMultiplier >= 1.0 && r.initialDelayMs >= 0.0
    ensures Delay(r, attempt) <= Delay(r, attempt + 1) <= r.maxDelayMs
  {
    var p, q := Pow(r.backoffMultiplier, attempt), Pow(r.backoffMultiplier, attempt + 1);
    PowAtLeastOne(r.backoffMultiplier, attempt);
    assert r.initialDelayMs * (q - p) >= 0.0;
    assert r.initialDelayMs * q == r.initialDelayMs * p + r.initialDelayMs * (q - p);
  }
}
