/** One cached token and one signing operation that concurrent sends share: apps/push-relay/src/apns.ts. */
module Transport {
  // Each step function below is what runs between two `await`s, so the events interleave freely.

  import opened Wrappers

  type Id = nat

  const TOKEN_SECONDS: int := 3000

  /** The cached promise of the imported key. Once it is rejected it stays so: nothing replaces it. */
  datatype Key = NoKey | Importing | Imported | Rejected

  datatype Jwt = Jwt(flight: Id, created: int)

  /** A token is known by the flight that signed it. */
  datatype Result = Token(flight: Id) | Failed

  datatype Progress = AwaitingKey | AwaitingSignature | Settled(result: Result)

  /** One run of the signing operation, started at `created`. */
  datatype Flight = Flight(created: int, progress: Progress)

  /** Where a send is: awaiting a flight, holding what `authorization` returned, awaiting the network, or over. */
  datatype Stage = Waiting(flight: Id, leader: bool) | Holding(result: Result) | OnWire | Over

  datatype Verdict =
    Accepted | Unregistered | Retryable | NetworkUnavailable | Mismatch | Rejection | Expired | NotConfigured

  /** What the network gives for a request: a status and what the body gives as the reason, or nothing usable. */
  datatype Reply = Responded(status: int, reason: string) | Lost

  /**
   * What has happened to a send: the clock readings its expiry was held against, whether it was aborted before it had a
   * verdict, whether there was no token for it, and what the network gave.
   */
  datatype Story = Story(readings: seq<int>, aborted: bool, unauthorized: bool, reply: Option<Reply>)

  /** A send. Its verdict is settled at the latest when it is over; an abort settles it at once. */
  datatype Send = Send(expires: int, stage: Stage, verdict: Option<Verdict>, story: Story)

  datatype Forwarded = Forwarded(send: Id, token: Id, at: int)

  datatype State = State(
    wellFormed: bool,
    key: Key,
    jwt: Option<Jwt>,
    signing: Option<Id>,
    flights: seq<Flight>,
    sends: map<Id, Send>,
    started: nat,
    mints: seq<Id>,
    network: seq<Forwarded>,
    clock: int)

  datatype Event =
    | Begin(expires: int, aborted: bool, t1: int, t2: int)
    | KeySettles(ok: bool)
    | UseKey(flight: Id)
    | Sign(flight: Id, ok: bool)
    | Wake(send: Id)
    | Abort(send: Id)
    | Forward(send: Id, t1: int)
    | Answer(send: Id, status: int, reason: string)
    | Break(send: Id)

  function Initial(wellFormed: bool, clock: int): State {
    State(wellFormed, NoKey, None, None, [], map[], 0, [], [], clock)
  }

  // ---------------------------------------------------------------- authorization

  predicate CacheHit(jwt: Option<Jwt>, now: int) {
    jwt.Some? && now >= jwt.value.created && now - jwt.value.created < TOKEN_SECONDS
  }

  /** A new flight: a malformed key fails at once, and the key is imported if that has never been tried. */
  function Launch(s: State, now: int): State {
    var attempt := s.key != NoKey || s.wellFormed;
    s.(key := if s.key == NoKey && s.wellFormed then Importing else s.key,
       signing := Some(|s.flights|),
       flights := s.flights + [Flight(now, if attempt then AwaitingKey else Settled(Failed))])
  }

  /** `authorization` up to its `await`. */
  function Authorize(s: State, now: int): (State, Stage) {
    if CacheHit(s.jwt, now) then (s, Holding(Token(s.jwt.value.flight)))
    else if s.signing.Some? then (s, Waiting(s.signing.value, false))
    else (Launch(s, now), Waiting(|s.flights|, true))
  }

  function Settle(s: State, flight: Id, result: Result): State
    requires flight < |s.flights|
  {
    s.(flights := s.flights[flight := s.flights[flight].(progress := Settled(result))])
  }

  /** The flight goes on once the key promise it awaits is settled. */
  function UseKeyStep(s: State, flight: Id): State {
    if flight >= |s.flights| || !s.flights[flight].progress.AwaitingKey? then s
    else if s.key == Imported then
      s.(flights := s.flights[flight := s.flights[flight].(progress := AwaitingSignature)])
    else if s.key == Rejected then Settle(s, flight, Failed)
    else s
  }

  /** The signature is there, or signing failed. */
  function SignStep(s: State, flight: Id, ok: bool): State {
    if flight >= |s.flights| || !s.flights[flight].progress.AwaitingSignature? then s
    else if ok then
      Settle(s, flight, Token(flight)).(jwt := Some(Jwt(flight, s.flights[flight].created)),
        mints := s.mints + [flight])
    else Settle(s, flight, Failed)
  }

  /** A send that awaited a flight goes on; the one that started it clears `signing` in its `finally`. */
  function WakeStep(s: State, id: Id): State {
    if id !in s.sends || !s.sends[id].stage.Waiting? then s
    else
      var stage := s.sends[id].stage;
      if stage.flight >= |s.flights| || !s.flights[stage.flight].progress.Settled? then s
      else
        s.(signing := if stage.leader then None else s.signing,
           sends := s.sends[id := s.sends[id].(stage := Holding(s.flights[stage.flight].progress.result))])
  }

  // ---------------------------------------------------------------- send

  function BeginStep(s: State, expires: int, aborted: bool, t1: int, t2: int): State {
    var id := s.started;
    var s := s.(started := id + 1, clock := t2);
    if expires <= t1 then
      s.(sends := s.sends[id := Send(expires, Over, Some(Expired), Story([t1], false, false, None))])
    else
      var (after, stage) := Authorize(s, t2);
      var verdict := if aborted then Some(NetworkUnavailable) else None;
      after.(sends := after.sends[id := Send(expires, stage, verdict, Story([t1], aborted, false, None))])
  }

  function AbortStep(s: State, id: Id): State {
    if id !in s.sends || s.sends[id].verdict.Some? then s
    else
      var send := s.sends[id];
      s.(sends := s.sends[id := send.(verdict := Some(NetworkUnavailable), story := send.story.(aborted := true))])
  }

  /** The rest of `send` after `authorization` returned: the network is reached by an unexpired send only. */
  function ForwardStep(s: State, id: Id, t1: int): State {
    if id !in s.sends || !s.sends[id].stage.Holding? then s
    else
      var send := s.sends[id];
      var result := send.stage.result;
      if result.Failed? then
        s.(sends := s.sends[id := Ended(send.(story := send.story.(unauthorized := true)), NotConfigured)])
      else if send.verdict.Some? then s.(sends := s.sends[id := send.(stage := Over)])
      else
        var read := send.(story := send.story.(readings := send.story.readings + [t1]));
        if send.expires <= t1 then s.(clock := t1, sends := s.sends[id := Ended(read, Expired)])
        else
          s.(clock := t1,
             sends := s.sends[id := read.(stage := OnWire)],
             network := s.network + [Forwarded(id, result.flight, t1)])
  }

  function Ended(send: Send, verdict: Verdict): Send {
    send.(stage := Over, verdict := if send.verdict.Some? then send.verdict else Some(verdict))
  }

  function Classify(status: int, reason: string): Verdict {
    if status < 200 || status > 599 then NetworkUnavailable
    else if status == 200 then Accepted
    else if status == 410 && reason == "Unregistered" then Unregistered
    else if status == 429 || status >= 500 then Retryable
    else if reason == "BadDeviceToken" then Mismatch
    else Rejection
  }

  /** The rest of `send` once the network has settled. */
  function AnswerStep(s: State, id: Id, reply: Reply): State {
    if id !in s.sends || !s.sends[id].stage.OnWire? then s
    else
      var send := s.sends[id];
      var verdict := if reply.Lost? then NetworkUnavailable else Classify(reply.status, reply.reason);
      s.(sends := s.sends[id := Ended(send.(story := send.story.(reply := Some(reply))), verdict)])
  }

  function Step(s: State, event: Event): State {
    match event
    case Begin(expires, aborted, t1, t2) => BeginStep(s, expires, aborted, t1, t2)
    case KeySettles(ok) => if s.key == Importing then s.(key := if ok then Imported else Rejected) else s
    case UseKey(flight) => UseKeyStep(s, flight)
    case Sign(flight, ok) => SignStep(s, flight, ok)
    case Wake(send) => WakeStep(s, send)
    case Abort(send) => AbortStep(s, send)
    case Forward(send, t1) => ForwardStep(s, send, t1)
    case Answer(send, status, reason) => AnswerStep(s, send, Responded(status, reason))
    case Break(send) => AnswerStep(s, send, Lost)
  }

  function Run(s: State, events: seq<Event>): State {
    if events == [] then s else Step(Run(s, events[..|events| - 1]), events[|events| - 1])
  }

  // ---------------------------------------------------------------- the object

  /**
   * What `authorization` does up to its `await`: an answer from the cache, another's flight, or a flight of its own.
   */
  datatype Authorization = Cached(token: Id) | Joins(flight: Id) | Leads(flight: Id)

  class ApnsTransport {
    const wellFormed: bool
    var key: Key
    var jwt: Option<Jwt>
    var signing: Option<Id>
    /** The flights there have been: what each run of the signing operation holds in its local variables. */
    var flights: seq<Flight>
    ghost var sends: map<Id, Send>
    ghost var started: nat
    ghost var mints: seq<Id>
    ghost var network: seq<Forwarded>
    ghost var clock: int

    ghost function Model(): State
      reads this
    {
      State(wellFormed, key, jwt, signing, flights, sends, started, mints, network, clock)
    }

    constructor (wellFormed: bool, ghost clock: int)
      ensures Model() == Initial(wellFormed, clock)
    {
      this.wellFormed := wellFormed;
      key, jwt, signing, flights := NoKey, None, None, [];
      sends, started, mints, network, this.clock := map[], 0, [], [], clock;
    }

    method Authorization(now: int) returns (a: Authorization)
      modifies this
      ensures var (after, stage) := Authorize(old(Model()), now);
              && Model() == after
              && stage == (match a
                           case Cached(token) => Holding(Token(token))
                           case Joins(flight) => Waiting(flight, false)
                           case Leads(flight) => Waiting(flight, true))
    {
      if jwt.Some? && now >= jwt.value.created && now - jwt.value.created < TOKEN_SECONDS {
        return Cached(jwt.value.flight);
      }
      if signing.Some? {
        return Joins(signing.value);
      }
      var flight := |flights|;
      var progress := AwaitingKey;
      if key == NoKey {
        if !wellFormed {
          progress := Settled(Failed);
        } else {
          key := Importing;
        }
      }
      flights := flights + [Flight(now, progress)];
      signing := Some(flight);
      return Leads(flight);
    }

    method ContinueWithKey(flight: Id)
      requires flight < |flights| && flights[flight].progress.AwaitingKey? && key in {Imported, Rejected}
      modifies this
      ensures Model() == UseKeyStep(old(Model()), flight)
    {
      var progress := if key == Imported then AwaitingSignature else Settled(Failed);
      flights := flights[flight := flights[flight].(progress := progress)];
    }

    method ContinueWithSignature(flight: Id, ok: bool)
      requires flight < |flights| && flights[flight].progress.AwaitingSignature?
      modifies this
      ensures Model() == SignStep(old(Model()), flight, ok)
    {
      if ok {
        jwt := Some(Jwt(flight, flights[flight].created));
        mints := mints + [flight];
      }
      flights := flights[flight := flights[flight].(progress := Settled(if ok then Token(flight) else Failed))];
    }

    /** The end of `authorization` for a send that awaited a flight. */
    method Return(ghost id: Id, flight: Id, leader: bool) returns (result: Result)
      requires id in sends && sends[id].stage == Waiting(flight, leader)
      requires flight < |flights| && flights[flight].progress.Settled?
      modifies this
      ensures Model() == WakeStep(old(Model()), id) && sends[id].stage == Holding(result)
    {
      result := flights[flight].progress.result;
      if leader {
        signing := None;
      }
      sends := sends[id := sends[id].(stage := Holding(result))];
    }
  }

  // ---------------------------------------------------------------- the invariant

  predicate Unsettled(s: State, flight: Id) {
    flight < |s.flights| && !s.flights[flight].progress.Settled?
  }

  predicate IsLeader(s: State, id: Id, flight: Id) {
    id in s.sends && s.sends[id].stage == Waiting(flight, true)
  }

  /** The one flight that may be under way is the one `signing` names, and exactly one send is bound to clear it. */
  ghost predicate SingleFlight(s: State) {
    && (forall f: Id :: Unsettled(s, f) ==> s.signing == Some(f))
    && (s.signing.Some? ==> s.signing.value < |s.flights| && exists id :: IsLeader(s, id, s.signing.value))
    && (forall id, f: Id :: IsLeader(s, id, f) ==> s.signing == Some(f))
    && (forall a, b, f: Id :: IsLeader(s, a, f) && IsLeader(s, b, f) ==> a == b)
    && (forall id :: id in s.sends && s.sends[id].stage.Waiting? ==> s.sends[id].stage.flight < |s.flights|)
    && (forall id :: id in s.sends ==> id < s.started)
  }

  /** Far enough from an earlier token: past its lifetime, or the clock has gone back behind it. */
  predicate Apart(earlier: int, later: int) {
    earlier + TOKEN_SECONDS <= later || later < earlier
  }

  /** The flights that made a token are the recorded ones. */
  ghost predicate Recorded(s: State) {
    && (forall i :: 0 <= i < |s.mints| ==>
         s.mints[i] < |s.flights| && s.flights[s.mints[i]].progress == Settled(Token(s.mints[i])))
    && (forall f :: 0 <= f < |s.flights| && s.flights[f].progress.Settled? && s.flights[f].progress.result.Token? ==>
         s.flights[f].progress.result == Token(f) && f in s.mints)
  }

  /** The tokens are made in order and apart, and the cached one is the last. */
  ghost predicate Spaced(s: State)
    requires Recorded(s)
  {
    && (s.jwt == if s.mints == [] then None
                 else Some(Jwt(s.mints[|s.mints| - 1], s.flights[s.mints[|s.mints| - 1]].created)))
    && (forall i :: 0 < i < |s.mints| ==>
         s.mints[i - 1] < s.mints[i] && Apart(s.flights[s.mints[i - 1]].created, s.flights[s.mints[i]].created))
    && (forall f: Id :: Unsettled(s, f) && s.jwt.Some? ==>
         s.jwt.value.flight < f && Apart(s.jwt.value.created, s.flights[f].created))
  }

  ghost predicate Minting(s: State) {
    Recorded(s) && Spaced(s)
  }

  ghost predicate Keys(s: State) {
    && (forall f: Id :: Unsettled(s, f) ==> s.key != NoKey)
    && (forall f :: 0 <= f < |s.flights| && s.flights[f].progress.AwaitingSignature? ==> s.key == Imported)
    && (s.mints != [] ==> s.key == Imported)
    && (!s.wellFormed ==> s.key == NoKey)
  }

  /** What sends hold and what reached the network. */
  ghost predicate Sending(s: State) {
    && (forall id :: id in s.sends && s.sends[id].stage.Holding? && s.sends[id].stage.result.Token? ==>
         s.sends[id].stage.result.flight in s.mints)
    && (forall i :: 0 <= i < |s.network| ==>
         && s.network[i].send in s.sends
         && s.network[i].token in s.mints
         && s.network[i].at < s.sends[s.network[i].send].expires
         && s.sends[s.network[i].send].stage in {OnWire, Over})
    && (forall i, j :: 0 <= i < j < |s.network| ==> s.network[i].send != s.network[j].send)
    && (forall id :: id in s.sends && s.sends[id].stage == Over ==> s.sends[id].verdict.Some?)
  }

  ghost predicate Inv(s: State) {
    SingleFlight(s) && Minting(s) && Keys(s) && Sending(s)
  }

  lemma LaunchedFlights(s: State, now: int)
    requires forall f: Id :: !Unsettled(s, f)
    ensures var after := Launch(s, now);
            && (forall f :: 0 <= f < |s.flights| ==> after.flights[f] == s.flights[f])
            && (forall f: Id :: Unsettled(after, f) ==> f == |s.flights|)
  {
    var after := Launch(s, now);
    forall f: Id | Unsettled(after, f) ensures f == |s.flights| {
      assert !Unsettled(s, f);
    }
  }

  /** A new flight is started only when no other is under way and the cached token is out of date. */
  lemma LaunchKeeps(s: State, now: int)
    requires Minting(s) && Keys(s) && s.signing.None? && (forall f: Id :: !Unsettled(s, f)) && !CacheHit(s.jwt, now)
    ensures Minting(Launch(s, now)) && Keys(Launch(s, now))
  {
    var after := Launch(s, now);
    LaunchedFlights(s, now);
    hide Unsettled;
    assert Keys(after);
    assert forall i :: 0 <= i < |s.mints| ==> s.mints[i] < |s.flights|;
  }

  lemma BeginSingle(s: State, expires: int, aborted: bool, t1: int, t2: int)
    requires Inv(s)
    ensures SingleFlight(BeginStep(s, expires, aborted, t1, t2))
  {
    hide Minting, Keys, Sending;
    var after := BeginStep(s, expires, aborted, t1, t2);
    var id := s.started;
    assert forall other :: other != id ==> (other in s.sends <==> other in after.sends);
    assert forall other :: other in s.sends ==> after.sends[other] == s.sends[other];
    assert forall other, f: Id :: other != id ==> (IsLeader(s, other, f) <==> IsLeader(after, other, f));
    assert forall f: Id :: f != |s.flights| ==> (Unsettled(s, f) <==> Unsettled(after, f));
    if s.signing.Some? {
      var leader :| IsLeader(s, leader, s.signing.value);
      assert IsLeader(after, leader, s.signing.value);
    } else if after.signing.Some? {
      assert IsLeader(after, id, after.signing.value);
    }
  }

  lemma BeginMinting(s: State, expires: int, aborted: bool, t1: int, t2: int)
    requires Inv(s)
    ensures var after := BeginStep(s, expires, aborted, t1, t2);
            Minting(after) && Keys(after)
  {
    var base := s.(started := s.started + 1, clock := t2);
    assert Minting(base) && Keys(base) by {
      SameFlights(s, base);
    }
    if expires > t1 && !CacheHit(s.jwt, t2) && s.signing.None? {
      assert forall f: Id :: Unsettled(base, f) ==> Unsettled(s, f);
      hide Minting, Keys, Sending, Launch;
      LaunchKeeps(base, t2);
      SameFlights(Launch(base, t2), BeginStep(s, expires, aborted, t1, t2));
    } else {
      hide Minting, Keys, Sending, SingleFlight;
      SameFlights(s, BeginStep(s, expires, aborted, t1, t2));
    }
  }

  /** Flights, key and tokens do not depend on the sends. */
  lemma SameFlights(s: State, after: State)
    requires Minting(s) && Keys(s)
    requires after.flights == s.flights && after.mints == s.mints && after.jwt == s.jwt && after.key == s.key
    requires after.wellFormed == s.wellFormed
    ensures Minting(after) && Keys(after)
  {
    assert forall f: Id :: Unsettled(after, f) == Unsettled(s, f);
  }

  /** Adding a send, or moving one on, that has not reached the network. */
  lemma SendStored(s: State, id: Id, send: Send, after: State)
    requires Sending(s) && after.network == s.network && after.mints == s.mints
    requires after.sends == s.sends[id := send]
    requires send.stage.Holding? && send.stage.result.Token? ==> send.stage.result.flight in s.mints
    requires send.stage == Over ==> send.verdict.Some?
    requires id in s.sends ==> send.expires == s.sends[id].expires
    requires id in s.sends && s.sends[id].stage in {OnWire, Over} ==> send.stage in {OnWire, Over}
    ensures Sending(after)
  {
  }

  lemma BeginSends(s: State, expires: int, aborted: bool, t1: int, t2: int)
    requires Inv(s)
    ensures Sending(BeginStep(s, expires, aborted, t1, t2))
  {
    assert s.started !in s.sends;
    assert CacheHit(s.jwt, t2) ==> s.jwt.value.flight in s.mints;
    hide Minting, Keys, SingleFlight, CacheHit, Sending;
    var after := BeginStep(s, expires, aborted, t1, t2);
    SendStored(s, s.started, after.sends[s.started], after);
  }

  lemma BeginKeeps(s: State, expires: int, aborted: bool, t1: int, t2: int)
    requires Inv(s)
    ensures Inv(BeginStep(s, expires, aborted, t1, t2))
  {
    BeginSingle(s, expires, aborted, t1, t2);
    BeginMinting(s, expires, aborted, t1, t2);
    BeginSends(s, expires, aborted, t1, t2);
    hide BeginStep, SingleFlight, Minting, Keys, Sending;
  }

  lemma KeySettlesKeeps(s: State, ok: bool)
    requires Inv(s)
    ensures Inv(Step(s, KeySettles(ok)))
  {
    var after := Step(s, KeySettles(ok));
    assert forall f: Id :: Unsettled(after, f) == Unsettled(s, f);
    assert forall id, f: Id :: IsLeader(after, id, f) == IsLeader(s, id, f);
  }

  /** The key, the flights' progress and the tokens do not touch the sends. */
  lemma SameSends(s: State, after: State)
    requires SingleFlight(s)
    requires after.sends == s.sends && after.signing == s.signing && after.started == s.started
    requires |after.flights| == |s.flights|
    requires forall f: Id :: Unsettled(after, f) ==> Unsettled(s, f)
    ensures SingleFlight(after)
  {
    assert forall id, f: Id :: IsLeader(after, id, f) == IsLeader(s, id, f);
  }

  lemma UseKeyKeeps(s: State, flight: Id)
    requires Inv(s)
    ensures Inv(UseKeyStep(s, flight))
  {
    var after := UseKeyStep(s, flight);
    if after != s {
      assert forall f: Id :: f != flight ==> Unsettled(after, f) == Unsettled(s, f);
      assert Unsettled(s, flight);
      hide SingleFlight, Minting, Sending, Unsettled;
      SameSends(s, after);
      NoToken(s, after, flight);
    }
  }

  lemma SignKeeps(s: State, flight: Id, ok: bool)
    requires Inv(s)
    ensures Inv(SignStep(s, flight, ok))
  {
    if flight < |s.flights| && s.flights[flight].progress.AwaitingSignature? {
      var after := SignStep(s, flight, ok);
      assert Unsettled(s, flight);
      assert forall f: Id :: f != flight ==> Unsettled(after, f) == Unsettled(s, f);
      assert !Unsettled(after, flight);
      SameSends(s, after);
      SignMinting(s, flight, ok);
      hide SingleFlight, Minting;
    }
  }

  lemma SignedFlights(s: State, flight: Id, ok: bool)
    requires SingleFlight(s) && flight < |s.flights| && s.flights[flight].progress.AwaitingSignature?
    ensures Unsettled(s, flight)
    ensures var after := SignStep(s, flight, ok);
            && (forall f: Id :: !Unsettled(after, f))
            && (forall f :: 0 <= f < |s.flights| && f != flight ==> after.flights[f] == s.flights[f])
            && after.flights[flight] == Flight(s.flights[flight].created, Settled(if ok then Token(flight) else Failed))
  {
    var after := SignStep(s, flight, ok);
    assert Unsettled(s, flight);
    forall f: Id ensures !Unsettled(after, f) {
      if f != flight {
        assert Unsettled(after, f) == Unsettled(s, f);
      }
    }
  }

  /** A flight under way moves on without making a token. */
  lemma NoToken(s: State, after: State, flight: Id)
    requires Minting(s) && Unsettled(s, flight)
    requires |after.flights| == |s.flights| && after.mints == s.mints && after.jwt == s.jwt
    requires after.flights[flight].created == s.flights[flight].created
    requires after.flights[flight].progress.Settled? ==> after.flights[flight].progress.result == Failed
    requires forall f :: 0 <= f < |s.flights| && f != flight ==> after.flights[f] == s.flights[f]
    requires forall f: Id :: Unsettled(after, f) ==> Unsettled(s, f)
    ensures Minting(after)
  {
    assert !s.flights[flight].progress.Settled?;
    hide Unsettled;
    assert forall i :: 0 <= i < |s.mints| ==> s.mints[i] != flight;
  }

  /** A flight under way makes its token: it becomes the cached one. */
  lemma NewToken(s: State, after: State, flight: Id)
    requires Minting(s) && Unsettled(s, flight)
    requires |after.flights| == |s.flights| && after.mints == s.mints + [flight]
    requires after.jwt == Some(Jwt(flight, s.flights[flight].created))
    requires after.flights[flight] == Flight(s.flights[flight].created, Settled(Token(flight)))
    requires forall f :: 0 <= f < |s.flights| && f != flight ==> after.flights[f] == s.flights[f]
    requires forall f: Id :: !Unsettled(after, f)
    ensures Minting(after)
  {
    var n := |s.mints|;
    assert n > 0 ==> s.mints[n - 1] < flight && Apart(s.flights[s.mints[n - 1]].created, s.flights[flight].created);
    assert forall i :: 0 <= i < n ==> s.mints[i] != flight;
    NewTokenRecorded(s, after, flight);
    assert after.mints[n] == flight;
    hide Unsettled, Apart, Recorded;
    forall i | 0 < i < n + 1
      ensures after.mints[i - 1] < after.mints[i]
      ensures Apart(after.flights[after.mints[i - 1]].created, after.flights[after.mints[i]].created)
    {
      assert after.mints[i - 1] == s.mints[i - 1];
      if i < n {
        assert after.mints[i] == s.mints[i];
      }
    }
  }

  lemma NewTokenRecorded(s: State, after: State, flight: Id)
    requires Recorded(s) && flight < |s.flights| && |after.flights| == |s.flights| && after.mints == s.mints + [flight]
    requires after.flights[flight] == Flight(s.flights[flight].created, Settled(Token(flight)))
    requires forall f :: 0 <= f < |s.flights| && f != flight ==> after.flights[f] == s.flights[f]
    requires forall i :: 0 <= i < |s.mints| ==> s.mints[i] != flight
    ensures Recorded(after)
  {
    forall i | 0 <= i < |after.mints|
      ensures after.mints[i] < |after.flights|
      ensures after.flights[after.mints[i]].progress == Settled(Token(after.mints[i]))
    {
      if i < |s.mints| {
        assert after.mints[i] == s.mints[i];
      }
    }
    assert after.mints[|s.mints|] == flight;
    forall f | 0 <= f < |after.flights| && after.flights[f].progress.Settled? && after.flights[f].progress.result.Token?
      ensures after.flights[f].progress.result == Token(f) && f in after.mints
    {
      if f != flight {
        var i :| 0 <= i < |s.mints| && s.mints[i] == f;
        assert after.mints[i] == f;
      }
    }
  }

  lemma SignMinting(s: State, flight: Id, ok: bool)
    requires SingleFlight(s) && Minting(s) && flight < |s.flights| && s.flights[flight].progress.AwaitingSignature?
    ensures Minting(SignStep(s, flight, ok))
  {
    SignedFlights(s, flight, ok);
    hide SingleFlight, Minting, Unsettled;
    if ok {
      NewToken(s, SignStep(s, flight, ok), flight);
    } else {
      NoToken(s, SignStep(s, flight, ok), flight);
    }
  }

  lemma WakeKeeps(s: State, id: Id)
    requires Inv(s)
    ensures Inv(WakeStep(s, id))
  {
    var after := WakeStep(s, id);
    if after != s {
      WakeSingle(s, id);
      SameFlights(s, after);
      var flight := s.sends[id].stage.flight;
      assert s.flights[flight].progress.result.Token? ==> s.flights[flight].progress.result.flight in s.mints;
      hide SingleFlight, Minting, Keys, Sending;
      SendStored(s, id, after.sends[id], after);
    }
  }

  lemma WakeSingle(s: State, id: Id)
    requires Inv(s)
    ensures SingleFlight(WakeStep(s, id))
  {
    hide Minting, Keys, Sending;
    var after := WakeStep(s, id);
    if after != s {
      var stage := s.sends[id].stage;
      assert forall f: Id :: Unsettled(after, f) == Unsettled(s, f);
      assert forall other, f: Id :: other != id ==> IsLeader(after, other, f) == IsLeader(s, other, f);
      assert forall f: Id :: !IsLeader(after, id, f);
      if stage.leader {
        assert IsLeader(s, id, stage.flight);
        assert !Unsettled(s, stage.flight);
      } else if s.signing.Some? {
        var leader :| IsLeader(s, leader, s.signing.value);
        assert leader != id;
        assert IsLeader(after, leader, s.signing.value);
      }
    }
  }

  /** A send that neither awaits a flight nor will: the flights do not depend on it. */
  lemma SendAside(s: State, id: Id, after: State)
    requires SingleFlight(s) && id in s.sends && id in after.sends
    requires after.sends == s.sends[id := after.sends[id]]
    requires after.sends[id].stage == s.sends[id].stage
             || !(s.sends[id].stage.Waiting? || after.sends[id].stage.Waiting?)
    requires after.flights == s.flights && after.signing == s.signing && after.started == s.started
    ensures SingleFlight(after)
  {
    assert forall f: Id :: Unsettled(after, f) == Unsettled(s, f);
    assert forall other, f: Id :: IsLeader(after, other, f) == IsLeader(s, other, f);
  }

  lemma AbortKeeps(s: State, id: Id)
    requires Inv(s)
    ensures Inv(AbortStep(s, id))
  {
    hide SingleFlight, Minting, Keys, Sending;
    var after := AbortStep(s, id);
    if after != s {
      SendAside(s, id, after);
      SameFlights(s, after);
      HeldTokens(s, id);
      SendStored(s, id, after.sends[id], after);
    }
  }

  lemma HeldTokens(s: State, id: Id)
    requires Sending(s) && id in s.sends
    ensures s.sends[id].stage.Holding? && s.sends[id].stage.result.Token? ==> s.sends[id].stage.result.flight in s.mints
  {
  }

  lemma AnswerKeeps(s: State, id: Id, reply: Reply)
    requires Inv(s)
    ensures Inv(AnswerStep(s, id, reply))
  {
    hide SingleFlight, Minting, Keys, Sending;
    var after := AnswerStep(s, id, reply);
    if after != s {
      SendAside(s, id, after);
      SameFlights(s, after);
      SendStored(s, id, after.sends[id], after);
    }
  }

  lemma ForwardKeeps(s: State, id: Id, t1: int)
    requires Inv(s)
    ensures Inv(ForwardStep(s, id, t1))
  {
    hide SingleFlight, Minting, Keys, Sending;
    var after := ForwardStep(s, id, t1);
    if after != s {
      SendAside(s, id, after);
      SameFlights(s, after);
      if after.network == s.network {
        SendStored(s, id, after.sends[id], after);
      } else {
        ForwardSends(s, id, t1);
      }
    }
  }

  lemma ForwardSends(s: State, id: Id, t1: int)
    requires Sending(s) && id in s.sends && s.sends[id].stage.Holding? && ForwardStep(s, id, t1).network != s.network
    ensures Sending(ForwardStep(s, id, t1))
  {
    var after := ForwardStep(s, id, t1);
    assert forall i :: 0 <= i < |s.network| ==> after.network[i] == s.network[i] && s.network[i].send != id;
  }

  lemma StepKeeps(s: State, event: Event)
    requires Inv(s)
    ensures Inv(Step(s, event))
  {
    match event
    case Begin(expires, aborted, t1, t2) => BeginKeeps(s, expires, aborted, t1, t2);
    case KeySettles(ok) => KeySettlesKeeps(s, ok);
    case UseKey(flight) => UseKeyKeeps(s, flight);
    case Sign(flight, ok) => SignKeeps(s, flight, ok);
    case Wake(send) => WakeKeeps(s, send);
    case Abort(send) => AbortKeeps(s, send);
    case Forward(send, t1) => ForwardKeeps(s, send, t1);
    case Answer(send, status, reason) => AnswerKeeps(s, send, Responded(status, reason));
    case Break(send) => AnswerKeeps(s, send, Lost);
  }

  lemma {:induction false} RunKeeps(s: State, events: seq<Event>)
    requires Inv(s)
    ensures Inv(Run(s, events))
  {
    if events == [] {
    } else {
      RunKeeps(s, events[..|events| - 1]);
      StepKeeps(Run(s, events[..|events| - 1]), events[|events| - 1]);
    }
  }

  // ---------------------------------------------------------------- main results, over every run

  function After(wellFormed: bool, clock: int, events: seq<Event>): State {
    Run(Initial(wellFormed, clock), events)
  }

  lemma Invariant(wellFormed: bool, clock: int, events: seq<Event>)
    ensures Inv(After(wellFormed, clock, events))
  {
    RunKeeps(Initial(wellFormed, clock), events);
  }

  /** At most one signing operation is under way, and it is the one every new caller joins. */
  lemma OneInFlight(wellFormed: bool, clock: int, events: seq<Event>, a: Id, b: Id)
    requires var s := After(wellFormed, clock, events); Unsettled(s, a) && Unsettled(s, b)
    ensures a == b && After(wellFormed, clock, events).signing == Some(a)
  {
    Invariant(wellFormed, clock, events);
  }

  /** The `finally` of a flight's first caller clears that flight and no other; no other caller clears anything. */
  lemma FinallyClearsItsOwn(wellFormed: bool, clock: int, events: seq<Event>, id: Id)
    requires var s := After(wellFormed, clock, events); WakeStep(s, id) != s
    ensures var s := After(wellFormed, clock, events);
            var stage := s.sends[id].stage;
            var after := WakeStep(s, id);
            if stage.leader then s.signing == Some(stage.flight) && after.signing.None?
            else after.signing == s.signing
  {
    Invariant(wellFormed, clock, events);
    var s := After(wellFormed, clock, events);
    assert s.sends[id].stage.leader ==> IsLeader(s, id, s.sends[id].stage.flight);
  }

  /** A settled flight never changes again, so every send that awaited it gets the same result, whenever it wakes. */
  lemma {:induction false} SettledForever(s: State, events: seq<Event>, flight: Id)
    requires flight < |s.flights| && s.flights[flight].progress.Settled?
    ensures flight < |Run(s, events).flights| && Run(s, events).flights[flight] == s.flights[flight]
  {
    if events == [] {
    } else {
      SettledForever(s, events[..|events| - 1], flight);
      SettledStep(Run(s, events[..|events| - 1]), events[|events| - 1], flight);
    }
  }

  lemma SettledStep(s: State, event: Event, flight: Id)
    requires flight < |s.flights| && s.flights[flight].progress.Settled?
    ensures flight < |Step(s, event).flights| && Step(s, event).flights[flight] == s.flights[flight]
  {
  }

  lemma SameResultForAll(s: State, events: seq<Event>, a: Id, b: Id, flight: Id)
    requires a in s.sends && s.sends[a].stage.Waiting? && s.sends[a].stage.flight == flight
    requires WakeStep(s, a) != s
    requires var later := Run(s, events);
             b in later.sends && later.sends[b].stage.Waiting? && later.sends[b].stage.flight == flight
    ensures var later := Run(s, events);
            WakeStep(later, b).sends[b].stage == WakeStep(s, a).sends[a].stage
              == Holding(s.flights[flight].progress.result)
  {
    SettledForever(s, events, flight);
  }

  /** The cache answers exactly while the last token is under 3000 seconds old, with that token and no new flight. */
  lemma CacheAnswers(wellFormed: bool, clock: int, events: seq<Event>, now: int)
    ensures var s := After(wellFormed, clock, events);
            var (after, stage) := Authorize(s, now);
            && (stage.Holding? <==>
                 && s.mints != [] && s.mints[|s.mints| - 1] < |s.flights|
                 && 0 <= now - s.flights[s.mints[|s.mints| - 1]].created < 3000)
            && (stage.Holding? ==> after == s && stage.result == Token(s.mints[|s.mints| - 1]))
            && (stage.Waiting? && stage.leader <==> |after.flights| == |s.flights| + 1)
  {
    Invariant(wellFormed, clock, events);
  }

  predicate Timely(s: State, event: Event) {
    match event
    case Begin(_, _, t1, t2) => s.clock <= t1 <= t2
    case Forward(_, t1) => s.clock <= t1
    case _ => true
  }

  ghost predicate TimelyRun(s: State, events: seq<Event>) {
    events == [] ||
    (TimelyRun(s, events[..|events| - 1]) && Timely(Run(s, events[..|events| - 1]), events[|events| - 1]))
  }

  /** On a clock that does not go back, flights start in order. */
  ghost predicate Ordered(s: State) {
    && (forall i, j :: 0 <= i <= j < |s.flights| ==> s.flights[i].created <= s.flights[j].created)
    && (forall i :: 0 <= i < |s.flights| ==> s.flights[i].created <= s.clock)
  }

  lemma OrderedStep(s: State, event: Event)
    requires Ordered(s) && Timely(s, event)
    ensures Ordered(Step(s, event))
  {
  }

  lemma {:induction false} OrderedRun(wellFormed: bool, clock: int, events: seq<Event>)
    requires TimelyRun(Initial(wellFormed, clock), events)
    ensures Ordered(After(wellFormed, clock, events))
  {
    if events == [] {
    } else {
      OrderedRun(wellFormed, clock, events[..|events| - 1]);
      OrderedStep(After(wellFormed, clock, events[..|events| - 1]), events[|events| - 1]);
    }
  }

  /** On a clock that does not go back, tokens are made at least 3000 seconds apart. */
  lemma TokensAreSpaced(wellFormed: bool, clock: int, events: seq<Event>, i: nat, j: nat)
    requires TimelyRun(Initial(wellFormed, clock), events)
    requires i < j < |After(wellFormed, clock, events).mints|
    ensures var s := After(wellFormed, clock, events);
            s.mints[i] < |s.flights| && s.mints[j] < |s.flights|
            && s.flights[s.mints[i]].created + 3000 <= s.flights[s.mints[j]].created
    decreases j - i
  {
    var s := After(wellFormed, clock, events);
    Invariant(wellFormed, clock, events);
    OrderedRun(wellFormed, clock, events);
    if i + 1 < j {
      TokensAreSpaced(wellFormed, clock, events, i, j - 1);
    }
    assert s.mints[j - 1] < s.mints[j] && Apart(s.flights[s.mints[j - 1]].created, s.flights[s.mints[j]].created);
  }

  /** Whatever reaches the network is unexpired at that moment, carries a token that was made, and goes out once. */
  lemma NetworkIsGuarded(wellFormed: bool, clock: int, events: seq<Event>)
    ensures var s := After(wellFormed, clock, events);
            && (forall i :: 0 <= i < |s.network| ==>
                 && s.network[i].send in s.sends
                 && s.network[i].at < s.sends[s.network[i].send].expires
                 && s.network[i].token in s.mints)
            && (forall i, j :: 0 <= i < j < |s.network| ==> s.network[i].send != s.network[j].send)
  {
    Invariant(wellFormed, clock, events);
  }

  ghost predicate WentOut(s: State, id: Id) {
    exists i :: 0 <= i < |s.network| && s.network[i].send == id
  }

  /** The verdicts that only an answer of the provider gives. */
  predicate FromProvider(v: Verdict) {
    v == Accepted || v == Unregistered || v == Retryable || v == Mismatch || v == Rejection
  }

  /** A send that has such a verdict, or waits for one, went out. */
  ghost predicate Grounded(s: State) {
    forall id :: id in s.sends
      && (s.sends[id].stage == OnWire || (s.sends[id].verdict.Some? && FromProvider(s.sends[id].verdict.value)))
      ==> WentOut(s, id)
  }

  lemma ForwardGrounded(s: State, id: Id, t1: int)
    requires Grounded(s)
    ensures Grounded(ForwardStep(s, id, t1))
  {
    var after := ForwardStep(s, id, t1);
    forall other | other in after.sends
      ensures WentOut(s, other) ==> WentOut(after, other)
    {
      if WentOut(s, other) {
        var i :| 0 <= i < |s.network| && s.network[i].send == other;
        assert after.network[i] == s.network[i];
      }
    }
    if |after.network| > |s.network| {
      assert after.network[|s.network|].send == id;
    }
    hide WentOut;
  }

  lemma AnswerGrounded(s: State, id: Id, reply: Reply)
    requires Grounded(s)
    ensures Grounded(AnswerStep(s, id, reply))
  {
    var after := AnswerStep(s, id, reply);
    assert forall other :: WentOut(after, other) <==> WentOut(s, other);
    hide WentOut;
  }

  /** A step that sends nothing out, and puts no send on the wire or gives it a provider's verdict, keeps the rest. */
  lemma SameWire(s: State, after: State)
    requires Grounded(s) && after.network == s.network
    requires forall id :: id in after.sends ==>
               || (id in s.sends && after.sends[id].verdict == s.sends[id].verdict
                 && (after.sends[id].stage == OnWire ==> s.sends[id].stage == OnWire))
               || (after.sends[id].stage != OnWire
                 && (after.sends[id].verdict.Some? ==> !FromProvider(after.sends[id].verdict.value)))
               || (id in s.sends && after.sends[id].stage == s.sends[id].stage
                 && after.sends[id].verdict == Some(NetworkUnavailable))
    ensures Grounded(after)
  {
    assert forall id :: WentOut(after, id) <==> WentOut(s, id);
    hide WentOut;
  }

  lemma BeginGrounded(s: State, expires: int, aborted: bool, t1: int, t2: int)
    requires Grounded(s) && s.started !in s.sends
    ensures Grounded(BeginStep(s, expires, aborted, t1, t2))
  {
    AuthorizeAside(s.(started := s.started + 1, clock := t2), t2);
    AuthorizeStage(s.(started := s.started + 1, clock := t2), t2);
    hide Authorize, Grounded;
    SameWire(s, BeginStep(s, expires, aborted, t1, t2));
  }

  lemma QuietGrounded(s: State, event: Event)
    requires Grounded(s) && (event.KeySettles? || event.UseKey? || event.Sign? || event.Wake? || event.Abort?)
    ensures Grounded(Step(s, event))
  {
    if event.UseKey? || event.Sign? {
      FlightsAside(s, event);
    }
    SameNetwork(s, event);
    hide Grounded, UseKeyStep, SignStep;
    SameWire(s, Step(s, event));
  }

  lemma AuthorizeStage(s: State, now: int)
    ensures Authorize(s, now).1 != OnWire
  {
  }

  lemma StepGrounded(s: State, event: Event)
    requires Inv(s) && Grounded(s)
    ensures Grounded(Step(s, event))
  {
    hide Grounded, Minting, Keys, Sending;
    if event.Forward? {
      ForwardGrounded(s, event.send, event.t1);
    } else if event.Answer? {
      AnswerGrounded(s, event.send, Responded(event.status, event.reason));
    } else if event.Break? {
      AnswerGrounded(s, event.send, Lost);
    } else if event.Begin? {
      BeginGrounded(s, event.expires, event.aborted, event.t1, event.t2);
    } else {
      QuietGrounded(s, event);
    }
  }

  lemma {:induction false} RunGrounded(s: State, events: seq<Event>)
    requires Inv(s) && Grounded(s)
    ensures Grounded(Run(s, events))
  {
    if events == [] {
    } else {
      var before, event := Run(s, events[..|events| - 1]), events[|events| - 1];
      RunGrounded(s, events[..|events| - 1]);
      RunKeeps(s, events[..|events| - 1]);
      StepGrounded(before, event);
      hide Inv, Grounded, Step;
    }
  }

  /** No delivery, and no dead device, is ever reported that the provider was not asked about. */
  lemma VerdictsAreGrounded(wellFormed: bool, clock: int, events: seq<Event>, id: Id)
    requires var s := After(wellFormed, clock, events);
             id in s.sends && s.sends[id].verdict.Some? && FromProvider(s.sends[id].verdict.value)
    ensures WentOut(After(wellFormed, clock, events), id)
  {
    RunGrounded(Initial(wellFormed, clock), events);
    hide WentOut;
  }

  /** An aborted send has its verdict and never reaches the network afterwards. */
  lemma {:induction false} AbortedStaysAway(s: State, events: seq<Event>, id: Id)
    requires Inv(s) && id in s.sends && s.sends[id].verdict.Some?
    ensures id in Run(s, events).sends && Run(s, events).sends[id].verdict == s.sends[id].verdict
    ensures (exists at, token :: Forwarded(id, token, at) in Run(s, events).network)
            <==> (exists at, token :: Forwarded(id, token, at) in s.network)
  {
    if events == [] {
    } else {
      var before, event := Run(s, events[..|events| - 1]), events[|events| - 1];
      AbortedStaysAway(s, events[..|events| - 1], id);
      RunKeeps(s, events[..|events| - 1]);
      AbortedStep(before, event, id);
    }
  }

  lemma AbortedStep(s: State, event: Event, id: Id)
    requires Inv(s) && id in s.sends && s.sends[id].verdict.Some?
    ensures id in Step(s, event).sends && Step(s, event).sends[id].verdict == s.sends[id].verdict
    ensures forall f: Forwarded :: f.send == id ==> (f in Step(s, event).network <==> f in s.network)
  {
    assert s.started !in s.sends;
    hide SingleFlight, Minting, Keys, Sending;
    if event.Begin? {
      AuthorizeAside(s.(started := s.started + 1, clock := event.t2), event.t2);
      hide Authorize;
    } else if event.Forward? {
      ForwardAside(s, event.send, event.t1, id);
      hide ForwardStep;
    } else {
      SameNetwork(s, event);
      SameVerdict(s, event, id);
      hide Step;
    }
  }

  lemma ForwardAside(s: State, id: Id, t1: int, other: Id)
    requires other in s.sends && s.sends[other].verdict.Some?
    ensures var after := ForwardStep(s, id, t1);
            && other in after.sends && after.sends[other].verdict == s.sends[other].verdict
            && (after.network == s.network
              || exists token, at :: after.network == s.network + [Forwarded(id, token, at)])
            && (id == other ==> after.network == s.network)
  {
  }

  lemma SameVerdict(s: State, event: Event, id: Id)
    requires id in s.sends && s.sends[id].verdict.Some? && !event.Begin? && !event.Forward?
    ensures id in Step(s, event).sends && Step(s, event).sends[id].verdict == s.sends[id].verdict
  {
    hide Classify, UseKeyStep, SignStep;
    if event.UseKey? || event.Sign? {
      FlightsAside(s, event);
    }
  }

  lemma FlightsAside(s: State, event: Event)
    requires event.UseKey? || event.Sign?
    ensures Step(s, event).sends == s.sends
  {
  }

  lemma SameNetwork(s: State, event: Event)
    requires !event.Begin? && !event.Forward?
    ensures Step(s, event).network == s.network
  {
  }

  /** A send stays, with its expiry, and with its verdict once it has one. */
  lemma SendStays(s: State, event: Event, id: Id)
    requires Inv(s) && id in s.sends
    ensures id in Step(s, event).sends && Step(s, event).sends[id].expires == s.sends[id].expires
    ensures s.sends[id].verdict.Some? ==> Step(s, event).sends[id].verdict == s.sends[id].verdict
  {
    assert s.started !in s.sends;
    hide Inv;
    if event.Begin? {
      AuthorizeAside(s.(started := s.started + 1, clock := event.t2), event.t2);
      hide Authorize;
    } else if event.UseKey? || event.Sign? {
      FlightsAside(s, event);
      hide Step;
    }
  }

  lemma AuthorizeAside(s: State, now: int)
    ensures var after := Authorize(s, now).0;
            after.sends == s.sends && after.network == s.network
  {
  }

  // ---------------------------------------------------------------- retrying after a failed flight

  /** Nothing makes a token while the key is malformed or its import has been rejected. */
  ghost predicate Hopeless(s: State) {
    && (s.key == Rejected || (!s.wellFormed && s.key == NoKey))
    && (forall f :: 0 <= f < |s.flights| ==> !s.flights[f].progress.AwaitingSignature?)
  }

  lemma HopelessStep(s: State, event: Event)
    requires Hopeless(s)
    ensures Hopeless(Step(s, event)) && Step(s, event).mints == s.mints
  {
  }

  lemma {:induction false} HopelessRun(s: State, events: seq<Event>)
    requires Hopeless(s)
    ensures Hopeless(Run(s, events)) && Run(s, events).mints == s.mints
  {
    if events == [] {
    } else {
      HopelessRun(s, events[..|events| - 1]);
      HopelessStep(Run(s, events[..|events| - 1]), events[|events| - 1]);
    }
  }

  lemma RunStep(s: State, events: seq<Event>, event: Event)
    ensures Run(s, events + [event]) == Step(Run(s, events), event)
  {
    assert (events + [event])[..|events|] == events;
  }

  /** The steps of a retry that goes well. */
  function Retry(s: State, expires: int, now: int): seq<Event> {
    var flight := |s.flights|;
    [Begin(expires, false, now, now)] + [KeySettles(true)] + [UseKey(flight)] + [Sign(flight, true)] + [Wake(s.started)]
  }

  /** Once a failed flight has been cleared, the next send starts a flight of its own and can get a token from it. */
  lemma RetrySucceeds(s: State, expires: int, now: int)
    requires Inv(s) && s.signing.None? && s.wellFormed && s.key != Rejected
    requires now < expires && !CacheHit(s.jwt, now)
    ensures var after := Run(s, Retry(s, expires, now));
            && after.mints == s.mints + [|s.flights|]
            && s.started in after.sends && after.sends[s.started].stage == Holding(Token(|s.flights|))
            && after.signing.None?
  {
    hide SingleFlight, Minting, Keys, Sending;
    var flight := |s.flights|;
    var begun := BeginStep(s, expires, false, now, now);
    var keyed := Step(begun, KeySettles(true));
    var used := UseKeyStep(keyed, flight);
    var signed := SignStep(used, flight, true);
    var none: seq<Event> := [];
    assert Run(s, none) == s;
    assert none + [Begin(expires, false, now, now)] == [Begin(expires, false, now, now)];
    RunStep(s, none, Begin(expires, false, now, now));
    var e1 := [Begin(expires, false, now, now)];
    RunStep(s, e1, KeySettles(true));
    RunStep(s, e1 + [KeySettles(true)], UseKey(flight));
    RunStep(s, e1 + [KeySettles(true)] + [UseKey(flight)], Sign(flight, true));
    RunStep(s, e1 + [KeySettles(true)] + [UseKey(flight)] + [Sign(flight, true)], Wake(s.started));
    hide Run;
    assert keyed.key == Imported && keyed.flights[flight] == Flight(now, AwaitingKey);
    assert keyed.mints == s.mints && keyed.sends[s.started].stage == Waiting(flight, true);
    hide BeginStep;
    assert used.flights[flight] == Flight(now, AwaitingSignature) && used.mints == s.mints;
    assert signed.flights[flight] == Flight(now, Settled(Token(flight))) && signed.mints == s.mints + [flight];
    assert signed.sends == keyed.sends;
  }

  /** Some continuation on a clock that does not go back makes a token. */
  ghost predicate CanMint(s: State) {
    exists more :: TimelyRun(s, more) && |Run(s, more).mints| > |s.mints|
  }

  lemma {:induction false} RunFirst(s: State, event: Event, more: seq<Event>)
    ensures Run(s, [event] + more) == Run(Step(s, event), more)
    ensures Timely(s, event) && TimelyRun(Step(s, event), more) ==> TimelyRun(s, [event] + more)
  {
    var events := [event] + more;
    if more == [] {
      assert events[..0] == [] && events[|events| - 1] == event;
      assert Run(s, []) == s && TimelyRun(s, []);
    } else {
      var n := |more| - 1;
      RunFirst(s, event, more[..n]);
      assert events[..|events| - 1] == [event] + more[..n] && events[|events| - 1] == more[n];
    }
    hide Step, Timely;
  }

  /** A step after which a token can be made. */
  lemma CanMintAfter(s: State, event: Event)
    requires Timely(s, event) && Step(s, event).mints == s.mints && CanMint(Step(s, event))
    ensures CanMint(s)
  {
    var more :| TimelyRun(Step(s, event), more) && |Run(Step(s, event), more).mints| > |Step(s, event).mints|;
    RunFirst(s, event, more);
    hide Step, Run, TimelyRun, Timely;
    assert |Run(s, [event] + more).mints| > |s.mints|;
  }

  lemma CanMintBySigning(s: State, flight: Id)
    requires flight < |s.flights| && s.flights[flight].progress.AwaitingSignature?
    ensures CanMint(s)
  {
    var sign := Sign(flight, true);
    RunFirst(s, sign, []);
    assert [sign] + [] == [sign];
    assert Run(Step(s, sign), []) == Step(s, sign) && TimelyRun(Step(s, sign), []);
    hide Run, TimelyRun;
    assert |Run(s, [sign]).mints| > |s.mints|;
  }

  lemma CanMintWithKey(s: State, flight: Id)
    requires flight < |s.flights| && s.flights[flight].progress.AwaitingKey? && s.key in {Importing, Imported}
    ensures CanMint(s)
  {
    var keyed := Step(s, KeySettles(true));
    var used := Step(keyed, UseKey(flight));
    assert keyed.key == Imported && keyed.flights == s.flights && keyed.mints == s.mints;
    assert used.flights[flight].progress == AwaitingSignature && used.mints == s.mints;
    hide Step, CanMint;
    CanMintBySigning(used, flight);
    CanMintAfter(keyed, UseKey(flight));
    CanMintAfter(s, KeySettles(true));
  }

  /** With no flight under way, a new send starts one. */
  lemma CanMintAnew(s: State)
    requires s.signing.None? && s.wellFormed && s.key != Rejected
    ensures CanMint(s)
  {
    var next := if s.jwt.Some? then s.jwt.value.created + TOKEN_SECONDS else s.clock;
    var now := if next < s.clock then s.clock else next;
    var begin := Begin(now + 1, false, now, now);
    var begun := Step(s, begin);
    assert !CacheHit(s.jwt, now);
    assert begun.flights == s.flights + [Flight(now, AwaitingKey)] && begun.key in {Importing, Imported};
    assert begun.mints == s.mints;
    hide Step, CanMint;
    CanMintWithKey(begun, |s.flights|);
    CanMintAfter(s, begin);
  }

  /** With a flight under way, or settled and not yet cleared, it goes on first. */
  lemma CanMintOn(s: State, flight: Id)
    requires Inv(s) && s.signing == Some(flight) && s.wellFormed && s.key != Rejected
    ensures CanMint(s)
  {
    hide CanMint, Minting, Sending;
    match s.flights[flight].progress
    case AwaitingSignature => CanMintBySigning(s, flight);
    case AwaitingKey =>
      assert Unsettled(s, flight);
      CanMintWithKey(s, flight);
    case Settled(_) =>
      var leader :| IsLeader(s, leader, flight);
      var woken := Step(s, Wake(leader));
      assert woken.signing.None? && woken.key == s.key && woken.wellFormed == s.wellFormed && woken.mints == s.mints;
      hide Step;
      CanMintAnew(woken);
      CanMintAfter(s, Wake(leader));
  }

  /**
   * In every reachable state a token can still be made exactly when the key is well formed and its import has not
   * failed: the rejected promise of a failed import stays in `key`, so every later flight fails on it.
   */
  lemma RetryPossibleIff(wellFormed: bool, clock: int, events: seq<Event>)
    ensures var s := After(wellFormed, clock, events); CanMint(s) <==> s.wellFormed && s.key != Rejected
  {
    var s := After(wellFormed, clock, events);
    Invariant(wellFormed, clock, events);
    if s.wellFormed && s.key != Rejected {
      hide After, Inv, CanMint;
      if s.signing.Some? {
        CanMintOn(s, s.signing.value);
      } else {
        CanMintAnew(s);
      }
    } else {
      forall more ensures |Run(s, more).mints| == |s.mints| {
        HopelessRun(s, more);
      }
    }
  }

  /** One send whose key import is rejected: no later send ever gets a token. */
  lemma RejectedKeyStays(events: seq<Event>, more: seq<Event>)
    requires events == [Begin(100, false, 0, 0)] + [KeySettles(false)]
    ensures After(true, 0, events).key == Rejected && Run(After(true, 0, events), more).mints == []
  {
    var s := Initial(true, 0);
    var begin := Begin(100, false, 0, 0);
    RunFirst(s, begin, [KeySettles(false)]);
    RunFirst(Step(s, begin), KeySettles(false), []);
    assert [KeySettles(false)] + [] == [KeySettles(false)];
    var after := Step(Step(s, begin), KeySettles(false));
    assert Run(after, []) == after;
    assert Hopeless(after) && after.mints == [];
    hide Step, Run, Hopeless;
    HopelessRun(after, more);
  }
}
