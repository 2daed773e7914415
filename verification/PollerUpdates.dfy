/** The poller against a server: which updates reach onChanged, for every way a server may choose validators. */
module PollerUpdates {
  import opened Wrappers
  import opened SpecPoller

  /** The validators a server sends with a content (sections 8.8.2 and 8.8.3 of RFC 9110). */
  datatype Server = Server(etagOf: string -> Option<string>, lastModifiedOf: string -> Option<string>)

  predicate Tagged(v: Server, content: string) {
    Truthy(v.etagOf(content))
  }

  predicate Dated(v: Server, content: string) {
    Truthy(v.lastModifiedOf(content))
  }

  /** Distinct contents have distinct effective validators: the entity tag where there is one, else the date. */
  ghost predicate Distinct(v: Server) {
    && (forall c, d :: Tagged(v, c) && v.etagOf(c) == v.etagOf(d) ==> c == d)
    && (forall c, d :: !Tagged(v, c) && !Tagged(v, d) && Dated(v, c) && v.lastModifiedOf(c) == v.lastModifiedOf(d)
          ==> c == d)
  }

  /** The server chooses validators the same way for every content: a tag on all, or on none of them a tag and a
      date on all or none. */
  ghost predicate Uniform(v: Server) {
    || (forall c :: Tagged(v, c))
    || ((forall c :: !Tagged(v, c)) && ((forall c :: Dated(v, c)) || (forall c :: !Dated(v, c))))
  }

  /** The digest tells contents apart. */
  ghost predicate Digest(cfg: Config) {
    (forall b :: cfg.hash(b) != "") && (forall b, c :: cfg.hash(b) == cfg.hash(c) ==> b == c)
  }

  /** How the exchange goes: not at all, in full, or with the body cut off. */
  datatype Channel = Down | Rejected | Complete | CutOff

  /** If-None-Match decides when present, and If-Modified-Since otherwise (section 13.2.2 of RFC 9110). */
  predicate Matches(v: Server, content: string, conditions: (Option<string>, Option<string>)) {
    if conditions.0.Some? then v.etagOf(content) == conditions.0
    else conditions.1.Some? && v.lastModifiedOf(content) == conditions.1
  }

  function Respond(v: Server, content: string, channel: Channel, conditions: (Option<string>, Option<string>)): Reply {
    match channel
    case Down => NetworkError
    case Rejected => HttpError
    case Complete =>
      if Matches(v, content, conditions) then NotModified
      else Body(v.etagOf(content), v.lastModifiedOf(content), content)
    case CutOff =>
      if Matches(v, content, conditions) then NotModified
      else BodyLost(v.etagOf(content), v.lastModifiedOf(content))
  }

  /** The server holds `content` when it answers this fetch. */
  datatype Fetch = Fetch(content: string, channel: Channel)

  /** `delivered` is the body last given to onChanged and `changes` the hashes given to it; `tagSource` and
      `dateSource` are the contents whose tag and whose date were saved last, each from its own response. */
  datatype Run = Run(
    state: State,
    delivered: Option<string>,
    changes: seq<string>,
    tagSource: Option<string>,
    dateSource: Option<string>,
    ok: bool)

  const START := Run(INITIAL, None, [], None, None, true)

  function Step(cfg: Config, v: Server, r: Run, fetch: Fetch): Run {
    var reply := Respond(v, fetch.content, fetch.channel, Conditions(cfg, r.state));
    var f := DoFetch(cfg, r.state, reply);
    var saved := reply.Body? || reply.BodyLost?;
    var tagSource := if saved && Tagged(v, fetch.content) then Some(fetch.content) else r.tagSource;
    var dateSource := if saved && Dated(v, fetch.content) then Some(fetch.content) else r.dateSource;
    if f.events != [] && f.events[0].OnChanged?
    then Run(f.state, Some(f.events[0].body), r.changes + [f.events[0].hash], tagSource, dateSource, f.ok)
    else Run(f.state, r.delivered, r.changes, tagSource, dateSource, f.ok)
  }

  // ---------------------------------------------------------------- the books

  /** The saved hash is that of the delivered body, and no change repeats the one before it. */
  ghost predicate HashTracks(cfg: Config, r: Run) {
    && r.state.lastHash == (if r.delivered.Some? then Some(cfg.hash(r.delivered.value)) else None)
    && (r.delivered.Some? <==> r.changes != [])
    && (r.changes != [] ==> r.changes[|r.changes| - 1] == cfg.hash(r.delivered.value))
    && (forall i :: 0 <= i < |r.changes| - 1 ==> r.changes[i] != r.changes[i + 1])
  }

  /** The saved tag and the saved date are those of their sources. */
  ghost predicate ValidatorTracks(v: Server, r: Run) {
    && (if r.tagSource.Some? then Tagged(v, r.tagSource.value) && r.state.lastEtag == v.etagOf(r.tagSource.value)
        else !Truthy(r.state.lastEtag))
    && (if r.dateSource.Some?
        then Dated(v, r.dateSource.value) && r.state.lastModified == v.lastModifiedOf(r.dateSource.value)
        else !Truthy(r.state.lastModified))
  }

  ghost predicate Tracks(cfg: Config, v: Server, r: Run) {
    HashTracks(cfg, r) && ValidatorTracks(v, r)
  }

  /** The content the next request claims to have: the source of the saved tag, or of the saved date while no tag
      has ever been saved. */
  predicate Claims(cfg: Config, v: Server, r: Run, content: string) {
    && cfg.conditional
    && (if r.tagSource.Some? then r.tagSource == Some(content)
        else r.dateSource.Some? && v.lastModifiedOf(r.dateSource.value) == v.lastModifiedOf(content))
  }

  /** The next request claims a content that was not the last one delivered. */
  predicate Blind(cfg: Config, v: Server, r: Run, content: string) {
    Claims(cfg, v, r, content) && r.delivered != Some(content)
  }

  lemma DistinctTags(v: Server, c: string, d: string)
    requires Distinct(v) && Tagged(v, c) && v.etagOf(c) == v.etagOf(d)
    ensures c == d
  {
  }

  /** A request is answered 304 exactly when the server holds the content it claims. */
  lemma MatchesClaimed(cfg: Config, v: Server, r: Run, content: string)
    requires Distinct(v) && ValidatorTracks(v, r)
    ensures Matches(v, content, Conditions(cfg, r.state)) <==> Claims(cfg, v, r, content)
  {
    hide Distinct;
    if r.tagSource.Some? && v.etagOf(r.tagSource.value) == v.etagOf(content) {
      DistinctTags(v, r.tagSource.value, content);
    }
  }

  lemma RespondKinds(v: Server, fetch: Fetch, conditions: (Option<string>, Option<string>))
    ensures var reply := Respond(v, fetch.content, fetch.channel, conditions);
            && (reply.NotModified? <==> fetch.channel in {Complete, CutOff} && Matches(v, fetch.content, conditions))
            && (reply.Body? <==> fetch.channel.Complete? && !Matches(v, fetch.content, conditions))
            && (reply.BodyLost? <==> fetch.channel.CutOff? && !Matches(v, fetch.content, conditions))
            && (reply.Body? ==> reply.body == fetch.content)
            && (reply.Body? || reply.BodyLost? ==>
                  reply.etag == v.etagOf(fetch.content) && reply.lastModified == v.lastModifiedOf(fetch.content))
  {
  }

  lemma StepKeepsValidators(cfg: Config, v: Server, r: Run, fetch: Fetch)
    requires ValidatorTracks(v, r)
    ensures ValidatorTracks(v, Step(cfg, v, r, fetch))
  {
    RespondKinds(v, fetch, Conditions(cfg, r.state));
    hide Respond, Matches, Conditions;
  }

  lemma DigestFacts(cfg: Config, b: string, c: string)
    requires Digest(cfg)
    ensures cfg.hash(b) != "" && (cfg.hash(b) == cfg.hash(c) ==> b == c)
  {
  }

  lemma StepKeepsHashes(cfg: Config, v: Server, r: Run, fetch: Fetch)
    requires Digest(cfg) && HashTracks(cfg, r)
    ensures HashTracks(cfg, Step(cfg, v, r, fetch))
    ensures var next := Step(cfg, v, r, fetch);
            if Respond(v, fetch.content, fetch.channel, Conditions(cfg, r.state)).Body?
            then next.delivered == Some(fetch.content) else next.delivered == r.delivered
  {
    DigestFacts(cfg, fetch.content, fetch.content);
    if r.delivered.Some? {
      DigestFacts(cfg, r.delivered.value, fetch.content);
    }
    hide Digest, Respond;
    RespondKinds(v, fetch, Conditions(cfg, r.state));
  }

  /** Every fetch keeps the books. A fetch that succeeds leaves the server's content delivered exactly when the
      request did not claim it undelivered. */
  lemma StepDeliversIff(cfg: Config, v: Server, r: Run, fetch: Fetch)
    requires Distinct(v) && Digest(cfg) && Tracks(cfg, v, r)
    ensures var next := Step(cfg, v, r, fetch);
            && Tracks(cfg, v, next)
            && (next.ok <==> fetch.channel.Complete? || (fetch.channel.CutOff? && Claims(cfg, v, r, fetch.content)))
            && (next.ok ==> (next.delivered == Some(fetch.content) <==> !Blind(cfg, v, r, fetch.content)))
            && next.delivered == (if fetch.channel.Complete? && !Claims(cfg, v, r, fetch.content) then Some(fetch.content)
                                  else r.delivered)
            && (next.tagSource, next.dateSource) == SourcesAfter(cfg, v, r, fetch)
  {
    MatchesClaimed(cfg, v, r, fetch.content);
    StepKeepsValidators(cfg, v, r, fetch);
    StepKeepsHashes(cfg, v, r, fetch);
    RespondKinds(v, fetch, Conditions(cfg, r.state));
    hide Distinct, Digest, HashTracks, ValidatorTracks, Respond, Matches, Conditions, Claims, Tagged, Dated;
  }

  /** A response's headers arrive unless it is a 304, and each validator it carries replaces the saved one. */
  function SourcesAfter(cfg: Config, v: Server, r: Run, fetch: Fetch): (Option<string>, Option<string>) {
    var saved := fetch.channel in {Complete, CutOff} && !Claims(cfg, v, r, fetch.content);
    (if saved && Tagged(v, fetch.content) then Some(fetch.content) else r.tagSource,
     if saved && Dated(v, fetch.content) then Some(fetch.content) else r.dateSource)
  }

  // ---------------------------------------------------------------- whole runs

  function RunAll(cfg: Config, v: Server, r: Run, fetches: seq<Fetch>): Run
    decreases |fetches|
  {
    if fetches == [] then r else RunAll(cfg, v, Step(cfg, v, r, fetches[0]), fetches[1..])
  }

  /** After every fetch that succeeds, the body last delivered is the content the server answered for. */
  ghost predicate NothingLost(cfg: Config, v: Server, r: Run, fetches: seq<Fetch>)
    decreases |fetches|
  {
    fetches != [] ==>
      var next := Step(cfg, v, r, fetches[0]);
      (next.ok ==> next.delivered == Some(fetches[0].content)) && NothingLost(cfg, v, next, fetches[1..])
  }

  /** No fetch that gets through finds the server holding a content that is claimed and undelivered. */
  ghost predicate NeverBlind(cfg: Config, v: Server, r: Run, fetches: seq<Fetch>)
    decreases |fetches|
  {
    fetches != [] ==>
      && (fetches[0].channel in {Complete, CutOff} ==> !Blind(cfg, v, r, fetches[0].content))
      && NeverBlind(cfg, v, Step(cfg, v, r, fetches[0]), fetches[1..])
  }

  /** Against every server with distinct validators, a run loses an update exactly when some fetch gets through
      while the request claims an undelivered content that the server holds. Consecutive change hashes differ. */
  lemma {:induction false} NothingLostIff(cfg: Config, v: Server, r: Run, fetches: seq<Fetch>)
    requires Distinct(v) && Digest(cfg) && Tracks(cfg, v, r)
    ensures NothingLost(cfg, v, r, fetches) <==> NeverBlind(cfg, v, r, fetches)
    ensures Tracks(cfg, v, RunAll(cfg, v, r, fetches))
    decreases |fetches|
  {
    hide Step, Distinct, Digest, Tracks;
    if fetches != [] {
      StepDeliversIff(cfg, v, r, fetches[0]);
      hide Blind, Claims;
      NothingLostIff(cfg, v, Step(cfg, v, r, fetches[0]), fetches[1..]);
    }
  }

  ghost predicate NoCutOff(fetches: seq<Fetch>) {
    forall i :: 0 <= i < |fetches| ==> !fetches[i].channel.CutOff?
  }

  // ---------------------------------------------------------------- which servers are safe without cut-offs

  /** The request claims at most what was delivered last. */
  ghost predicate Current(v: Server, r: Run) {
    && (r.tagSource.None? || r.tagSource == r.delivered)
    && (r.tagSource.Some? || r.dateSource.None? || (r.dateSource == r.delivered && !Tagged(v, r.dateSource.value)))
  }

  lemma UniformKinds(v: Server, c: string, d: string)
    requires Uniform(v)
    ensures (Tagged(v, c) <==> Tagged(v, d)) && (!Tagged(v, c) ==> (Dated(v, c) <==> Dated(v, d)))
  {
  }

  lemma DistinctDates(v: Server, c: string, d: string)
    requires Distinct(v) && !Tagged(v, c) && !Tagged(v, d) && Dated(v, c) && v.lastModifiedOf(c) == v.lastModifiedOf(d)
    ensures c == d
  {
  }

  lemma CurrentIsNotBlind(cfg: Config, v: Server, r: Run, content: string)
    requires Uniform(v) && Distinct(v) && ValidatorTracks(v, r) && Current(v, r)
    ensures !Blind(cfg, v, r, content)
  {
    hide Uniform, Distinct;
    if r.tagSource.None? && r.dateSource.Some? && v.lastModifiedOf(r.dateSource.value) == v.lastModifiedOf(content) {
      UniformKinds(v, r.dateSource.value, content);
      DistinctDates(v, r.dateSource.value, content);
    }
  }

  lemma StepKeepsCurrent(cfg: Config, v: Server, r: Run, fetch: Fetch)
    requires Uniform(v) && Distinct(v) && Digest(cfg) && Tracks(cfg, v, r) && Current(v, r) && !fetch.channel.CutOff?
    ensures Current(v, Step(cfg, v, r, fetch))
  {
    StepDeliversIff(cfg, v, r, fetch);
    if r.tagSource.Some? {
      UniformKinds(v, r.tagSource.value, fetch.content);
    }
    if r.dateSource.Some? {
      UniformKinds(v, r.dateSource.value, fetch.content);
    }
    hide Uniform, Distinct, Digest, HashTracks, Step, Claims;
  }

  lemma {:induction false} UniformNeverBlind(cfg: Config, v: Server, r: Run, fetches: seq<Fetch>)
    requires Uniform(v) && Distinct(v) && Digest(cfg) && Tracks(cfg, v, r) && Current(v, r) && NoCutOff(fetches)
    ensures NeverBlind(cfg, v, r, fetches)
    decreases |fetches|
  {
    if fetches != [] {
      CurrentIsNotBlind(cfg, v, r, fetches[0].content);
      StepKeepsCurrent(cfg, v, r, fetches[0]);
      StepDeliversIff(cfg, v, r, fetches[0]);
      hide Step, Uniform, Distinct, Digest, Tracks, Current, Blind;
      UniformNeverBlind(cfg, v, Step(cfg, v, r, fetches[0]), fetches[1..]);
    }
  }

  /** Two contents of which only one carries the validator that requests are made conditional on. */
  predicate Mixed(v: Server, c: string, d: string) {
    (Tagged(v, c) && !Tagged(v, d)) || (!Tagged(v, c) && !Tagged(v, d) && Dated(v, c) && !Dated(v, d))
  }

  /** With no body ever cut off, a server that goes from one to the other and back loses the way back: the old
      validator outlives the response that had none to replace it. */
  lemma MixedLosesUpdate(cfg: Config, v: Server, c: string, d: string)
    requires Distinct(v) && Digest(cfg) && cfg.conditional && Mixed(v, c, d)
    ensures var fetches := [Fetch(c, Complete), Fetch(d, Complete), Fetch(c, Complete)];
            var end := RunAll(cfg, v, START, fetches);
            end.ok && end.delivered == Some(d) && d != c && !NothingLost(cfg, v, START, fetches)
  {
    var fetches := [Fetch(c, Complete), Fetch(d, Complete), Fetch(c, Complete)];
    StepDeliversIff(cfg, v, START, fetches[0]);
    var first := Step(cfg, v, START, fetches[0]);
    StepDeliversIff(cfg, v, first, fetches[1]);
    var second := Step(cfg, v, first, fetches[1]);
    StepDeliversIff(cfg, v, second, fetches[2]);
    var third := Step(cfg, v, second, fetches[2]);
    assert second.delivered == Some(d) && Claims(cfg, v, second, c);
    hide Step, Distinct, Digest, Tracks, Claims;
    assert fetches[1..] == [fetches[1], fetches[2]] && fetches[1..][1..] == [fetches[2]] && [fetches[2]][1..] == [];
    assert RunAll(cfg, v, second, [fetches[2]]) == RunAll(cfg, v, third, []);
    assert !NothingLost(cfg, v, second, [fetches[2]]);
  }

  lemma MixedContents(v: Server) returns (c: string, d: string)
    requires !Uniform(v)
    ensures Mixed(v, c, d)
  {
    if exists x :: Tagged(v, x) {
      c :| Tagged(v, c);
      d :| !Tagged(v, d);
    } else {
      c :| Dated(v, c);
      d :| !Dated(v, d);
    }
  }

  /** Without cut-off bodies no run loses an update if and only if the server chooses its validators uniformly;
      for a server that always sends one, if and only if it tags every content or none. */
  lemma UniformIff(cfg: Config, v: Server)
    requires Distinct(v) && Digest(cfg) && cfg.conditional
    ensures (forall fetches :: NoCutOff(fetches) ==> NothingLost(cfg, v, START, fetches)) <==> Uniform(v)
    ensures (forall c :: Tagged(v, c) || Dated(v, c))
            ==> (Uniform(v) <==> (forall c :: Tagged(v, c)) || (forall c :: !Tagged(v, c)))
  {
    if Uniform(v) {
      forall fetches | NoCutOff(fetches)
        ensures NothingLost(cfg, v, START, fetches)
      {
        UniformNeverBlind(cfg, v, START, fetches);
        NothingLostIff(cfg, v, START, fetches);
      }
    } else {
      var c, d := MixedContents(v);
      MixedLosesUpdate(cfg, v, c, d);
      assert NoCutOff([Fetch(c, Complete), Fetch(d, Complete), Fetch(c, Complete)]);
    }
  }

  // ---------------------------------------------------------------- cut-off bodies, and the unconditional mode

  /** In 'content-hash' mode no request is conditional: whatever the server sends, no update is lost. */
  lemma {:induction false} ContentHashNeverLoses(cfg: Config, v: Server, r: Run, fetches: seq<Fetch>)
    requires Digest(cfg) && HashTracks(cfg, r) && !cfg.conditional
    ensures NothingLost(cfg, v, r, fetches)
    decreases |fetches|
  {
    if fetches != [] {
      StepKeepsHashes(cfg, v, r, fetches[0]);
      RespondKinds(v, fetches[0], Conditions(cfg, r.state));
      var next := Step(cfg, v, r, fetches[0]);
      assert next.ok ==> next.delivered == Some(fetches[0].content);
      hide Step, Digest, HashTracks, Respond;
      ContentHashNeverLoses(cfg, v, next, fetches[1..]);
    }
  }

  /** A cut-off body of an undelivered content loses it for the next fetch, which succeeds, exactly when the content
      is tagged, or dated while no tag has ever been saved. */
  lemma CutOffLosesIff(cfg: Config, v: Server, r: Run, content: string)
    requires Distinct(v) && Digest(cfg) && Tracks(cfg, v, r) && cfg.conditional && r.delivered != Some(content)
    ensures var after := RunAll(cfg, v, r, [Fetch(content, CutOff), Fetch(content, Complete)]);
            && after.ok
            && after.delivered == (if Tagged(v, content) || (r.tagSource.None? && Dated(v, content)) then r.delivered
                                   else Some(content))
  {
    var fetches := [Fetch(content, CutOff), Fetch(content, Complete)];
    StepDeliversIff(cfg, v, r, fetches[0]);
    var cut := Step(cfg, v, r, fetches[0]);
    StepDeliversIff(cfg, v, cut, fetches[1]);
    var after := Step(cfg, v, cut, fetches[1]);
    assert Claims(cfg, v, cut, content) <==> Tagged(v, content) || (r.tagSource.None? && Dated(v, content));
    hide Step, Distinct, Digest, Tracks, Claims;
    assert fetches[1..] == [fetches[1]] && [fetches[1]][1..] == [];
    assert RunAll(cfg, v, r, fetches) == RunAll(cfg, v, cut, [fetches[1]]) == RunAll(cfg, v, after, []);
  }
}
