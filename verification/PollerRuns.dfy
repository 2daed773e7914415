/** The poller under interleaving: polls may be called at any moment, and replies and timers arrive one by one. */
module PollerRuns {
  import opened SpecPoller

  /** A cycle in flight: which attempt it is on, and whether it waits for a reply or for the backoff timer. */
  datatype Flight = Flight(attempt: nat, backingOff: bool)

  /** Nothing here forbids several cycles; that there is never more than one is proved. `delays` holds the backoff delays
      of each cycle begun so far, in order. */
  datatype World = World(state: State, flights: seq<Flight>, trace: seq<Event>, delays: seq<seq<real>>)

  datatype Action = CallPoll | Answer(flight: nat, reply: Reply) | Timer(flight: nat)

  const START := World(INITIAL, [], [], [])

  function Land(w: World, i: nat, s: State, events: seq<Event>): World
    requires i < |w.flights|
  {
    World(s.(isPolling := false), w.flights[..i] + w.flights[i + 1..], w.trace + events, w.delays)
  }

  /** One more delay in the cycle begun last. */
  function Waited(delays: seq<seq<real>>, d: real): seq<seq<real>> {
    if delays == [] then [[d]] else delays[..|delays| - 1] + [delays[|delays| - 1] + [d]]
  }

  function Do(cfg: Config, w: World, a: Action): World {
    match a
    case CallPoll =>
      if w.state.isPolling || cfg.retry.maxRetries < 0 then w
      else World(w.state.(isPolling := true), w.flights + [Flight(0, false)], w.trace, w.delays + [[]])
    case Answer(i, reply) =>
      if i >= |w.flights| || w.flights[i].backingOff then w
      else
        var f := DoFetch(cfg, w.state, reply);
        if f.ok then
          var (done, events) := Succeed(f.state);
          Land(w, i, done, f.events + events)
        else if w.flights[i].attempt == cfg.retry.maxRetries then
          var (done, events) := GiveUp(cfg, f.state);
          Land(w, i, done, f.events + events)
        else
          World(f.state, w.flights[i := Flight(w.flights[i].attempt, true)], w.trace + f.events,
                Waited(w.delays, Delay(cfg.retry, w.flights[i].attempt)))
    case Timer(i) =>
      if i >= |w.flights| || !w.flights[i].backingOff then w
      else w.(flights := w.flights[i := Flight(w.flights[i].attempt + 1, false)])
  }

  function RunAll(cfg: Config, w: World, actions: seq<Action>): World
    decreases |actions|
  {
    if actions == [] then w else RunAll(cfg, Do(cfg, w, actions[0]), actions[1..])
  }

  /** The health callbacks of a trace: true for onUnhealthy, false for onRecovered. */
  function Marks(trace: seq<Event>): seq<bool> {
    if trace == [] then []
    else
      var last := trace[|trace| - 1];
      Marks(trace[..|trace| - 1])
      + (if last.OnUnhealthy? then [true] else if last.OnRecovered? then [false] else [])
  }

  /** Single flight; bounded attempts; health is `unhealthy` exactly under wasUnhealthy, which is what the
      strictly alternating health callbacks add up to. */
  ghost predicate Inv(cfg: Config, w: World) {
    && |w.flights| == (if w.state.isPolling then 1 else 0)
    && (forall i :: 0 <= i < |w.flights| ==>
          w.flights[i].attempt <= cfg.retry.maxRetries
          && (w.flights[i].backingOff ==> w.flights[i].attempt < cfg.retry.maxRetries))
    && (w.state.health.Unhealthy? <==> w.state.wasUnhealthy)
    && (w.state.wasUnhealthy ==> w.state.consecutiveFailures > 0)
    && Alternating(Marks(w.trace), w.state.wasUnhealthy)
    && Backoffs(cfg, w)
  }

  /** The delays of every cycle are those of attempts 0, 1, ..., none for the last one allowed; the cycle in flight has
      waited once for each attempt before its present one, and once more while it backs off. */
  ghost predicate Backoffs(cfg: Config, w: World) {
    && (forall c {:trigger InOrder(cfg, w.delays[c])} :: 0 <= c < |w.delays| ==> InOrder(cfg, w.delays[c]))
    && (forall i :: 0 <= i < |w.flights| ==>
          && w.delays != []
          && |w.delays[|w.delays| - 1]| == w.flights[i].attempt + (if w.flights[i].backingOff then 1 else 0))
  }

  ghost predicate InOrder(cfg: Config, delays: seq<real>) {
    && (delays == [] || |delays| <= cfg.retry.maxRetries)
    && (forall i :: 0 <= i < |delays| ==> delays[i] == Delay(cfg.retry, i))
  }

  /** true, false, true, ...; open when the last mark is an onUnhealthy. */
  ghost predicate Alternating(marks: seq<bool>, open: bool) {
    (open <==> |marks| % 2 == 1) && forall i :: 0 <= i < |marks| ==> (marks[i] <==> i % 2 == 0)
  }

  lemma AlternatingGrows(marks: seq<bool>, open: bool, more: seq<bool>, open': bool)
    requires Alternating(marks, open)
    requires more == if open == open' then [] else [open']
    ensures Alternating(marks + more, open')
  {
  }

  /** A stretch of a trace with its health marks. */
  lemma MarksGrow(trace: seq<Event>, a: seq<Event>, b: seq<Event>, open: bool, open': bool)
    requires Alternating(Marks(trace), open) && Marks(a) == []
    requires Marks(b) == if open == open' then [] else [open']
    ensures Alternating(Marks(trace + (a + b)), open')
  {
    hide Alternating;
    MarksAppend(trace, a + b);
    MarksAppend(a, b);
    assert [] + Marks(b) == Marks(b);
    AlternatingGrows(Marks(trace), open, Marks(b), open');
  }

  lemma {:induction false} MarksAppend(a: seq<Event>, b: seq<Event>)
    ensures Marks(a + b) == Marks(a) + Marks(b)
  {
    if b == [] {
      assert a + b == a && Marks(a) + [] == Marks(a);
    } else {
      var n := |b| - 1;
      assert (a + b)[..|a + b| - 1] == a + b[..n];
      MarksAppend(a, b[..n]);
    }
  }

  lemma FetchMarks(cfg: Config, s: State, reply: Reply)
    ensures var f := DoFetch(cfg, s, reply);
            && Marks(f.events) == []
            && f.state.isPolling == s.isPolling && f.state.health == s.health
            && f.state.wasUnhealthy == s.wasUnhealthy && f.state.consecutiveFailures == s.consecutiveFailures
  {
    var f := DoFetch(cfg, s, reply);
    if f.events != [] {
      assert f.events[..0] == [];
    }
  }

  lemma SucceedMarks(s: State)
    requires s.wasUnhealthy ==> s.consecutiveFailures > 0
    ensures var (done, events) := Succeed(s);
            && Marks(events) == (if s.wasUnhealthy then [false] else [])
            && !done.wasUnhealthy && done.health == Healthy && done.consecutiveFailures == 0
  {
    assert [OnRecovered][..0] == [];
  }

  lemma GiveUpMarks(cfg: Config, s: State)
    requires s.health.Unhealthy? <==> s.wasUnhealthy
    ensures var (done, events) := GiveUp(cfg, s);
            && Marks(events) == (if done.wasUnhealthy && !s.wasUnhealthy then [true] else [])
            && (s.wasUnhealthy ==> done.wasUnhealthy)
            && (done.health.Unhealthy? <==> done.wasUnhealthy) && done.consecutiveFailures == s.consecutiveFailures + 1
            && (done.wasUnhealthy <==> s.wasUnhealthy || done.consecutiveFailures >= cfg.unhealthyThreshold)
  {
    var events := GiveUp(cfg, s).1;
    assert [OnError][..0] == [] && events[..1] == [OnError];
  }

  lemma ActionKeepsInv(cfg: Config, w: World, a: Action)
    requires Inv(cfg, w)
    ensures Inv(cfg, Do(cfg, w, a))
  {
    ActionKeepsBackoffs(cfg, w, a);
    hide Backoffs, Waited;
    if a.Answer? && a.flight < |w.flights| && !w.flights[a.flight].backingOff {
      hide DoFetch, Succeed, GiveUp, Delay, Marks, Alternating;
      var f := DoFetch(cfg, w.state, a.reply);
      FetchMarks(cfg, w.state, a.reply);
      var open := w.state.wasUnhealthy;
      if f.ok {
        SucceedMarks(f.state);
        MarksGrow(w.trace, f.events, Succeed(f.state).1, open, false);
      } else if w.flights[a.flight].attempt == cfg.retry.maxRetries {
        GiveUpMarks(cfg, f.state);
        MarksGrow(w.trace, f.events, GiveUp(cfg, f.state).1, open, GiveUp(cfg, f.state).0.wasUnhealthy);
      } else {
        NoMarks();
        MarksGrow(w.trace, f.events, [], open, open);
        assert f.events + [] == f.events;
      }
    }
  }

  lemma WaitedInOrder(cfg: Config, delays: seq<seq<real>>, attempt: nat)
    requires delays != [] && |delays[|delays| - 1]| == attempt < cfg.retry.maxRetries
    requires forall c :: 0 <= c < |delays| ==> InOrder(cfg, delays[c])
    ensures var after := Waited(delays, Delay(cfg.retry, attempt));
            && |after| == |delays| && |after[|after| - 1]| == attempt + 1
            && (forall c :: 0 <= c < |after| ==> InOrder(cfg, after[c]))
  {
    hide Delay;
    var n := |delays| - 1;
    assert InOrder(cfg, delays[n]);
    assert InOrder(cfg, delays[n] + [Delay(cfg.retry, attempt)]);
  }

  lemma ActionKeepsBackoffs(cfg: Config, w: World, a: Action)
    requires Inv(cfg, w)
    ensures Backoffs(cfg, Do(cfg, w, a))
  {
    hide DoFetch, Succeed, GiveUp, Delay, Marks, Alternating, InOrder;
    if a.Answer? && a.flight < |w.flights| && !w.flights[a.flight].backingOff
       && w.flights[a.flight].attempt < cfg.retry.maxRetries {
      WaitedInOrder(cfg, w.delays, w.flights[a.flight].attempt);
    }
    NoDelays(cfg);
  }

  lemma NoDelays(cfg: Config)
    ensures InOrder(cfg, [])
  {
  }

  lemma NoMarks()
    ensures Marks([]) == []
  {
  }

  lemma StartInv(cfg: Config)
    ensures Inv(cfg, START)
  {
  }

  /** In every interleaving, cycles never overlap, none goes past its last attempt, and the health state is
      what the strictly alternating onUnhealthy and onRecovered callbacks say. */
  lemma {:induction false} EveryInterleaving(cfg: Config, w: World, actions: seq<Action>)
    requires Inv(cfg, w)
    ensures Inv(cfg, RunAll(cfg, w, actions))
    decreases |actions|
  {
    hide Inv, Do;
    if actions != [] {
      ActionKeepsInv(cfg, w, actions[0]);
      EveryInterleaving(cfg, Do(cfg, w, actions[0]), actions[1..]);
    }
  }

  /** So in every interleaving the delays of each cycle are at most maxRetries, grow, stay under the cap, and begin with
      the initial delay, each further one being the multiplied one before. */
  lemma DelaysGrowInEveryInterleaving(cfg: Config, actions: seq<Action>)
    requires cfg.retry.backoffMultiplier >= 1.0 && cfg.retry.initialDelayMs >= 0.0
    ensures var delays := RunAll(cfg, START, actions).delays;
            forall c :: 0 <= c < |delays| ==>
              && (delays[c] == [] || |delays[c]| <= cfg.retry.maxRetries)
              && (forall i, j :: 0 <= i <= j < |delays[c]| ==> delays[c][i] <= delays[c][j] <= cfg.retry.maxDelayMs)
              && BacksOff(cfg.retry, delays[c])
  {
    StartInv(cfg);
    EveryInterleaving(cfg, START, actions);
    var delays := RunAll(cfg, START, actions).delays;
    hide RunAll, Delay, BacksOff;
    forall c | 0 <= c < |delays|
      ensures delays[c] == [] || |delays[c]| <= cfg.retry.maxRetries
      ensures BacksOff(cfg.retry, delays[c])
      ensures forall i, j :: 0 <= i <= j < |delays[c]| ==> delays[c][i] <= delays[c][j] <= cfg.retry.maxDelayMs
    {
      assert InOrder(cfg, delays[c]);
      DelaysBackOff(cfg.retry, delays[c]);
      forall i, j | 0 <= i <= j < |delays[c]|
        ensures delays[c][i] <= delays[c][j] <= cfg.retry.maxDelayMs
      {
        DelaysGrow(cfg.retry, i, j);
      }
    }
  }

  lemma {:induction false} DelaysGrow(r: Retry, i: nat, j: nat)
    requires i <= j && r.backoffMultiplier >= 1.0 && r.initialDelayMs >= 0.0
    ensures Delay(r, i) <= Delay(r, j) <= r.maxDelayMs
    decreases j
  {
    if i < j {
      DelaysGrow(r, i, j - 1);
      DelaysGrowToCap(r, j - 1);
    }
  }

  // ---------------------------------------------------------------- steps add up to a cycle

  /** The replies and timers of one undisturbed cycle, from an attempt on. */
  function CycleActions(cfg: Config, s: State, replies: nat -> Reply, attempt: nat): seq<Action>
    decreases cfg.retry.maxRetries + 1 - attempt
  {
    if attempt > cfg.retry.maxRetries then []
    else
      var f := DoFetch(cfg, s, replies(attempt));
      [Answer(0, replies(attempt))]
      + (if f.ok || attempt == cfg.retry.maxRetries then []
         else [Timer(0)] + CycleActions(cfg, f.state, replies, attempt + 1))
  }

  /** More delays in the cycle begun last. */
  function WaitedAll(delays: seq<seq<real>>, more: seq<real>): seq<seq<real>>
    requires delays != []
  {
    delays[..|delays| - 1] + [delays[|delays| - 1] + more]
  }

  lemma WaitedCons(delays: seq<seq<real>>, d: real, more: seq<real>)
    requires delays != []
    ensures Waited(delays, d) != [] && WaitedAll(Waited(delays, d), more) == WaitedAll(delays, [d] + more)
    ensures WaitedAll(delays, []) == delays
  {
    var n := |delays| - 1;
    assert delays[n] + [] == delays[n] && (delays[n] + [d]) + more == delays[n] + ([d] + more);
  }

  lemma RunStep(cfg: Config, w: World, a: Action, rest: seq<Action>)
    ensures RunAll(cfg, w, [a] + rest) == RunAll(cfg, Do(cfg, w, a), rest)
  {
    assert ([a] + rest)[1..] == rest;
  }

  /** Step by step, an undisturbed cycle does what the retry loop does in one go. */
  lemma {:induction false} StepsMakeCycle(cfg: Config, w: World, replies: nat -> Reply, attempt: nat)
    requires w.flights == [Flight(attempt, false)] && attempt <= cfg.retry.maxRetries && w.delays != []
    ensures var c := Attempts(cfg, w.state, replies, attempt);
            RunAll(cfg, w, CycleActions(cfg, w.state, replies, attempt))
            == World(c.state.(isPolling := false), [], w.trace + c.events, WaitedAll(w.delays, c.delays))
    decreases cfg.retry.maxRetries + 1 - attempt
  {
    hide DoFetch, Succeed, GiveUp, Delay, Waited, WaitedAll;
    var reply := replies(attempt);
    var f := DoFetch(cfg, w.state, reply);
    var answered := Do(cfg, w, Answer(0, reply));
    var c := Attempts(cfg, w.state, replies, attempt);
    if f.ok || attempt == cfg.retry.maxRetries {
      RunStep(cfg, w, Answer(0, reply), []);
      WaitedCons(w.delays, 0.0, []);
      assert answered.trace == w.trace + c.events;
    } else {
      var next := Do(cfg, answered, Timer(0));
      var later := CycleActions(cfg, f.state, replies, attempt + 1);
      RunStep(cfg, w, Answer(0, reply), [Timer(0)] + later);
      RunStep(cfg, answered, Timer(0), later);
      var d := Delay(cfg.retry, attempt);
      var rest := Attempts(cfg, f.state, replies, attempt + 1);
      WaitedCons(w.delays, d, rest.delays);
      assert next == World(f.state, [Flight(attempt + 1, false)], w.trace + f.events, Waited(w.delays, d));
      StepsMakeCycle(cfg, next, replies, attempt + 1);
      assert next.trace + rest.events == w.trace + c.events;
    }
  }

  /** And a poll on an idle poller, taken step by step, is the poll of the object: with a negative number of retries it
      does nothing, and otherwise it begins a cycle, with delays of its own, and carries it through. While a cycle runs
      a further poll does nothing. */
  lemma PollIsCycle(cfg: Config, w: World, replies: nat -> Reply)
    requires w.flights == [] && !w.state.isPolling
    ensures var c := PollCycle(cfg, w.state, replies);
            var actions := CycleActions(cfg, w.state.(isPolling := true), replies, 0);
            RunAll(cfg, w, [CallPoll] + actions)
            == World(c.state, [], w.trace + c.events, if cfg.retry.maxRetries < 0 then w.delays else w.delays + [c.delays])
    ensures var begun := Do(cfg, w, CallPoll);
            && Do(cfg, begun, CallPoll) == begun
            && |begun.flights| == (if cfg.retry.maxRetries < 0 then 0 else 1)
            && PollCycle(cfg, w.state.(isPolling := true), replies).fetches == 0
  {
    var begun := Do(cfg, w, CallPoll);
    RunStep(cfg, w, CallPoll, CycleActions(cfg, w.state.(isPolling := true), replies, 0));
    hide DoFetch, Succeed, GiveUp, Delay;
    if cfg.retry.maxRetries >= 0 {
      StepsMakeCycle(cfg, begun, replies, 0);
      var c := Attempts(cfg, begun.state, replies, 0);
      assert [] + c.delays == c.delays;
      assert WaitedAll(begun.delays, c.delays) == w.delays + [c.delays];
    }
  }
}
