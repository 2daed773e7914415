/** The persisted secret of the remember plugin: one generation at a time, shared by its callers. */
module SecretCache {
  import opened Wrappers

  /** The two module variables; a promise is known by the number of the generation behind it. */
  datatype Vars = Vars(cachedSecret: Option<string>, generation: Option<nat>)

  /** How a call to `getOrCreatePersistedSecret` ends its synchronous part. */
  datatype Entry = Immediate(secret: string) | Join(generation: nat) | Begin(generation: nat)

  function EnterCall(v: Vars, next: nat): (Vars, Entry) {
    if v.cachedSecret.Some? then (v, Immediate(v.cachedSecret.value))
    else if v.generation.Some? then (v, Join(v.generation.value))
    else (v.(generation := Some(next)), Begin(next))
  }

  class SecretPersistence {
    var cachedSecret: Option<string>
    var secretGenerationPromise: Option<nat>

    ghost function State(): Vars
      reads this
    {
      Vars(cachedSecret, secretGenerationPromise)
    }

    constructor ()
      ensures State() == Vars(None, None)
    {
      cachedSecret := None;
      secretGenerationPromise := None;
    }

    method GetOrCreate(next: nat) returns (e: Entry)
      modifies this
      ensures (State(), e) == EnterCall(old(State()), next)
    {
      if cachedSecret.Some? {
        return Immediate(cachedSecret.value);
      }
      if secretGenerationPromise.Some? {
        return Join(secretGenerationPromise.value);
      }
      secretGenerationPromise := Some(next);
      return Begin(next);
    }

    /** The generation's last synchronous stretch: None is an exception; the `finally` runs either way. */
    method Settle(secret: Option<string>)
      modifies this
      ensures State() == Vars(if secret.Some? then secret else old(cachedSecret), None)
    {
      if secret.Some? {
        cachedSecret := secret;
      }
      secretGenerationPromise := None;
    }

    method ClearCachedSecret()
      modifies this
      ensures State() == old(State()).(cachedSecret := None)
    {
      cachedSecret := None;
    }
  }

  // ---------------------------------------------------------------- interleavings

  datatype Phase = Loading | Saving(secret: string)

  datatype Outcome = Waiting(generation: nat) | Got(secret: string) | Threw

  /** A caller, and how many clears came before it. */
  datatype Caller = Caller(epoch: nat, outcome: Outcome)

  /** `running` holds every generation in flight, `file` the secret on disk. */
  datatype World = World(
    vars: Vars,
    running: map<nat, Phase>,
    callers: seq<Caller>,
    epoch: nat,
    started: nat,
    file: Option<string>)

  datatype Action =
    | CallStarts
    | Clear
    /** The file has been read; `made` is the secret made up when there is none to use. */
    | Loaded(g: nat, enabled: bool, made: string)
    | Saved(g: nat, ok: bool)
    | Fails(g: nat)
    | FileChanges(content: Option<string>)

  const START := World(Vars(None, None), map[], [], 0, 0, None)

  function SettleCallers(callers: seq<Caller>, g: nat, outcome: Outcome): (after: seq<Caller>)
    ensures |after| == |callers|
  {
    if callers == [] then []
    else [if callers[0].outcome == Waiting(g) then callers[0].(outcome := outcome) else callers[0]]
         + SettleCallers(callers[1..], g, outcome)
  }

  function Settle(w: World, g: nat, secret: Option<string>): World {
    w.(vars := Vars(if secret.Some? then secret else w.vars.cachedSecret, None),
       running := w.running - {g},
       callers := SettleCallers(w.callers, g, if secret.Some? then Got(secret.value) else Threw))
  }

  function Do(w: World, a: Action): World {
    match a
    case CallStarts =>
      var (vars, e) := EnterCall(w.vars, w.started);
      var outcome := match e case Immediate(s) => Got(s) case Join(g) => Waiting(g) case Begin(g) => Waiting(g);
      w.(vars := vars,
         callers := w.callers + [Caller(w.epoch, outcome)],
         running := if e.Begin? then w.running[e.generation := Loading] else w.running,
         started := if e.Begin? then w.started + 1 else w.started)
    case Clear => w.(vars := w.vars.(cachedSecret := None), epoch := w.epoch + 1)
    case Loaded(g, enabled, made) =>
      if g !in w.running || !w.running[g].Loading? then w
      else if enabled && w.file.Some? then Settle(w, g, w.file)
      else if enabled then w.(running := w.running[g := Saving(made)])
      else Settle(w, g, Some(made))
    case Saved(g, ok) =>
      if g !in w.running || !w.running[g].Saving? then w
      else
        var secret := w.running[g].secret;
        Settle(w, g, Some(secret)).(file := if ok then Some(secret) else w.file)
    case Fails(g) => if g !in w.running then w else Settle(w, g, None)
    case FileChanges(content) => w.(file := content)
  }

  function RunAll(w: World, actions: seq<Action>): World
    decreases |actions|
  {
    if actions == [] then w else RunAll(Do(w, actions[0]), actions[1..])
  }

  lemma {:induction false} SettledAt(callers: seq<Caller>, g: nat, outcome: Outcome, i: nat)
    requires i < |callers|
    ensures SettleCallers(callers, g, outcome)[i]
            == if callers[i].outcome == Waiting(g) then callers[i].(outcome := outcome) else callers[i]
  {
    if i > 0 {
      SettledAt(callers[1..], g, outcome, i - 1);
    }
  }

  /** One generation in flight at most, and every waiting caller waits for that one. */
  ghost predicate SingleFlight(w: World) {
    && w.running.Keys == (if w.vars.generation.Some? then {w.vars.generation.value} else {})
    && (w.vars.generation.Some? ==> w.vars.cachedSecret.None?)
    && (forall i :: 0 <= i < |w.callers| && w.callers[i].outcome.Waiting?
          ==> w.vars.generation == Some(w.callers[i].outcome.generation))
  }

  /** Callers between the same two clears that do not fail end up with one secret, which is the cached one
      until the next clear. */
  ghost predicate Agreement(w: World) {
    && (forall i :: 0 <= i < |w.callers| ==> w.callers[i].epoch <= w.epoch)
    && (forall i, j :: 0 <= i < |w.callers| && 0 <= j < |w.callers| && w.callers[i].epoch == w.callers[j].epoch
          && !w.callers[i].outcome.Threw? && !w.callers[j].outcome.Threw?
          ==> w.callers[i].outcome == w.callers[j].outcome)
    && (forall i :: 0 <= i < |w.callers| && w.callers[i].epoch == w.epoch && w.callers[i].outcome.Got?
          ==> w.vars.cachedSecret == Some(w.callers[i].outcome.secret))
  }

  lemma SettleKeeps(w: World, g: nat, secret: Option<string>)
    requires SingleFlight(w) && Agreement(w) && g in w.running
    ensures SingleFlight(Settle(w, g, secret)) && Agreement(Settle(w, g, secret))
  {
    var outcome := if secret.Some? then Got(secret.value) else Threw;
    var after := SettleCallers(w.callers, g, outcome);
    forall i | 0 <= i < |after|
      ensures after[i] == if w.callers[i].outcome == Waiting(g) then w.callers[i].(outcome := outcome) else w.callers[i]
    {
      SettledAt(w.callers, g, outcome, i);
    }
    assert w.running.Keys - {g} == {};
  }

  lemma ActionKeeps(w: World, a: Action)
    requires SingleFlight(w) && Agreement(w)
    ensures SingleFlight(Do(w, a)) && Agreement(Do(w, a))
  {
    match a
    case CallStarts =>
    case Clear =>
    case Loaded(g, enabled, made) =>
      if g in w.running && w.running[g].Loading? {
        if enabled && w.file.Some? {
          SettleKeeps(w, g, w.file);
        } else if !enabled {
          SettleKeeps(w, g, Some(made));
        }
      }
    case Saved(g, ok) =>
      if g in w.running && w.running[g].Saving? {
        SettleKeeps(w, g, Some(w.running[g].secret));
      }
    case Fails(g) =>
      if g in w.running {
        SettleKeeps(w, g, None);
      }
    case FileChanges(_) =>
  }

  /** In every interleaving of callers, clears, file operations and failures, at most one generation runs and
      callers that start between two consecutive clears never receive different secrets. */
  lemma {:induction false} EveryInterleaving(w: World, actions: seq<Action>)
    requires SingleFlight(w) && Agreement(w)
    ensures var end := RunAll(w, actions);
            && SingleFlight(end) && Agreement(end)
            && |end.running| <= 1
            && (forall i, j :: 0 <= i < |end.callers| && 0 <= j < |end.callers|
                  && end.callers[i].epoch == end.callers[j].epoch
                  && end.callers[i].outcome.Got? && end.callers[j].outcome.Got?
                  ==> end.callers[i].outcome.secret == end.callers[j].outcome.secret)
    decreases |actions|
  {
    if actions == [] {
      assert |w.running.Keys| <= 1;
    } else {
      ActionKeeps(w, actions[0]);
      EveryInterleaving(Do(w, actions[0]), actions[1..]);
    }
  }

  // ---------------------------------------------------------------- persistence across clears

  /** Persistence is on, saves succeed, and nobody else touches the file. */
  predicate Persists(a: Action) {
    match a
    case Loaded(_, enabled, _) => enabled
    case Saved(_, ok) => ok
    case FileChanges(_) => false
    case _ => true
  }

  ghost predicate OnFile(w: World) {
    && (forall i :: 0 <= i < |w.callers| && w.callers[i].outcome.Got? ==> w.file == Some(w.callers[i].outcome.secret))
    && (w.vars.cachedSecret.Some? ==> w.vars.cachedSecret == w.file)
    && (forall g :: g in w.running && w.running[g].Saving? ==> w.file.None?)
  }

  lemma SettleKeepsOnFile(w: World, g: nat, secret: Option<string>, file: Option<string>)
    requires SingleFlight(w) && OnFile(w) && g in w.running
    requires (secret.Some? ==> file == secret) && (w.file.Some? ==> file == w.file)
    ensures OnFile(Settle(w, g, secret).(file := file))
  {
    var outcome := if secret.Some? then Got(secret.value) else Threw;
    var after := SettleCallers(w.callers, g, outcome);
    forall i | 0 <= i < |after|
      ensures after[i] == if w.callers[i].outcome == Waiting(g) then w.callers[i].(outcome := outcome) else w.callers[i]
    {
      SettledAt(w.callers, g, outcome, i);
    }
    assert w.running.Keys - {g} == {};
  }

  lemma ActionKeepsOnFile(w: World, a: Action)
    requires SingleFlight(w) && OnFile(w) && Persists(a)
    ensures OnFile(Do(w, a))
    ensures w.file.Some? ==> Do(w, a).file == w.file
  {
    match a
    case Loaded(g, _, _) =>
      if g in w.running && w.running[g].Loading? && w.file.Some? {
        SettleKeepsOnFile(w, g, w.file, w.file);
      }
    case Saved(g, _) =>
      if g in w.running && w.running[g].Saving? {
        SettleKeepsOnFile(w, g, Some(w.running[g].secret), Some(w.running[g].secret));
      }
    case Fails(g) =>
      if g in w.running {
        SettleKeepsOnFile(w, g, None, w.file);
      }
    case _ =>
  }

  /** While persistence works, clearing the cache never changes the secret: every caller of the whole run that
      gets one gets the secret on file. */
  lemma {:induction false} PersistedSecretIsStable(w: World, actions: seq<Action>)
    requires SingleFlight(w) && Agreement(w) && OnFile(w)
    requires forall i :: 0 <= i < |actions| ==> Persists(actions[i])
    ensures OnFile(RunAll(w, actions))
    ensures w.file.Some? ==> RunAll(w, actions).file == w.file
    decreases |actions|
  {
    hide SingleFlight, Agreement, OnFile, Do, Persists;
    if actions != [] {
      ActionKeeps(w, actions[0]);
      ActionKeepsOnFile(w, actions[0]);
      PersistedSecretIsStable(Do(w, actions[0]), actions[1..]);
    }
  }

  /** A generation from the reading of the file to its end, when nothing fails but perhaps the save. */
  function Generate(w: World, g: nat, enabled: bool, made: string, ok: bool): World {
    Do(Do(w, Loaded(g, enabled, made)), Saved(g, ok))
  }

  /** A generation begun after a clear gives every caller that waits for it one secret. It differs from an earlier one if
      and only if persistence is off, or the file is absent or holds another, a newly made secret being never an old
      one. */
  lemma SecretChangesIff(w: World, g: nat, enabled: bool, made: string, ok: bool, earlier: string, i: nat)
    requires SingleFlight(w) && g in w.running && w.running[g].Loading? && made != earlier
    requires i < |w.callers| && w.callers[i].outcome == Waiting(g)
    ensures var end := Generate(w, g, enabled, made, ok);
            && end.callers[i].outcome.Got? && end.vars.cachedSecret == Some(end.callers[i].outcome.secret)
            && end.running == map[]
            && (end.callers[i].outcome.secret != earlier <==> !enabled || w.file != Some(earlier))
  {
    assert w.running.Keys - {g} == {};
    var loaded := Do(w, Loaded(g, enabled, made));
    if g !in loaded.running {
      SettledAt(w.callers, g, Got(if enabled then w.file.value else made), i);
    } else {
      assert loaded.running.Keys == {g};
      SettledAt(loaded.callers, g, Got(made), i);
    }
  }

  /** A generation that fails leaves nothing behind: its callers fail with it, the file and the other callers stay as they
      are, and the next call begins a generation anew. */
  lemma FailureReleases(w: World, g: nat)
    requires SingleFlight(w) && g in w.running
    ensures var end := Do(w, Fails(g));
            && end.running == map[] && end.file == w.file && |end.callers| == |w.callers|
            && (forall i :: 0 <= i < |w.callers| ==>
                  end.callers[i] == if w.callers[i].outcome.Waiting? then Caller(w.callers[i].epoch, Threw)
                                    else w.callers[i])
            && Do(end, CallStarts).running == map[w.started := Loading]
            && Do(end, CallStarts).callers == end.callers + [Caller(w.epoch, Waiting(w.started))]
  {
    assert w.running.Keys - {g} == {};
    forall i | 0 <= i < |w.callers|
      ensures Do(w, Fails(g)).callers[i]
              == if w.callers[i].outcome.Waiting? then Caller(w.callers[i].epoch, Threw) else w.callers[i]
    {
      SettledAt(w.callers, g, Threw, i);
    }
  }

  lemma StartHolds()
    ensures SingleFlight(START) && Agreement(START) && OnFile(START)
  {
  }

  /** Without persistence two callers on either side of a clear can hold different secrets. */
  lemma ClearCanSplitSecrets()
    ensures var actions := [CallStarts, Loaded(0, false, "a"), Clear, CallStarts, Loaded(1, false, "b")];
            RunAll(START, actions).callers == [Caller(0, Got("a")), Caller(1, Got("b"))]
  {
    var w1 := Do(START, CallStarts);
    assert w1.callers == [Caller(0, Waiting(0))];
    var w2 := Do(w1, Loaded(0, false, "a"));
    assert w2.callers == [Caller(0, Got("a"))];
    var w3 := Do(w2, Clear);
    var w4 := Do(w3, CallStarts);
    assert w4.callers == [Caller(0, Got("a")), Caller(1, Waiting(1))];
    assert w4.callers[1..] == [Caller(1, Waiting(1))] && w4.callers[1..][1..] == [];
    var w5 := Do(w4, Loaded(1, false, "b"));
    SettledAt(w4.callers, 1, Got("b"), 0);
    SettledAt(w4.callers, 1, Got("b"), 1);
    assert w5.callers == [Caller(0, Got("a")), Caller(1, Got("b"))];
    var a1 := [CallStarts] + ([Loaded(0, false, "a")] + ([Clear] + ([CallStarts] + ([Loaded(1, false, "b")] + []))));
    RunStep(START, CallStarts, [Loaded(0, false, "a")] + ([Clear] + ([CallStarts] + ([Loaded(1, false, "b")] + []))));
    RunStep(w1, Loaded(0, false, "a"), [Clear] + ([CallStarts] + ([Loaded(1, false, "b")] + [])));
    RunStep(w2, Clear, [CallStarts] + ([Loaded(1, false, "b")] + []));
    RunStep(w3, CallStarts, [Loaded(1, false, "b")] + []);
    RunStep(w4, Loaded(1, false, "b"), []);
    assert a1 == [CallStarts, Loaded(0, false, "a"), Clear, CallStarts, Loaded(1, false, "b")];
  }

  lemma RunStep(w: World, a: Action, rest: seq<Action>)
    ensures RunAll(w, [a] + rest) == RunAll(Do(w, a), rest)
  {
    assert ([a] + rest)[1..] == rest;
  }
}
