/** The relay's request handling as a system of atomic steps: apps/push-relay/src/relay.ts, `createRelay`. */
module Relay {
  // A request runs without interruption up to its first `await`, so any number of requests interleave between these
  // steps: `Enter` (up to reading the body), `Upload` (the body has been read and judged), `Resume` (the target limiter
  // and the hand-over to the transport) and `Finish` (the transport answered).

  import opened Wrappers
  import opened Limits
  import opened Wire

  const IP_LIMIT: nat := 120
  const TARGET_LIMIT: nat := 60
  const ISOLATE_LIMIT: nat := 600
  const MAX_ENTRIES: nat := 4096
  const CONCURRENCY: nat := 32
  const WINDOW_MS: Positive := 60000
  const ISOLATE: string := "isolate"

  type Id = nat

  datatype Config = Config(keyId: string, privateKey: string, teamId: string, topic: string)

  /** What the deployment's variables give: nothing where they are malformed. */
  datatype Bindings = Bindings(config: Option<Config>, environments: Option<seq<string>>)

  datatype Request = Request(path: string, verb: string, client: string, headerError: Option<Reply>)

  datatype Reason =
    | NotFound | MethodNotAllowed | RelayBusy | RateLimited | RelayNotConfigured | UnsupportedMediaType
    | RequestTooLarge | RequestTimeout | InvalidRequest | EnvironmentDisabled | Expired

  datatype Reply = Reply(status: nat, reason: Reason)

  /** How reading the body ended. */
  datatype Body = TooLarge | TimedOut | Unreadable | Parsed(value: Json)

  /** What `readRequest` returns. */
  datatype Judged = Refused(reply: Reply) | Accepted(request: SendRequest)

  /** A request that holds a slot and has not been handed to the transport. */
  datatype Waiting = Uploading(config: Config, environments: seq<string>) | Ready(config: Config, judged: Judged)

  datatype Transport = Transport(config: Config, serial: nat)

  datatype Sending = Sending(config: Config, transport: Transport)

  datatype State = State(
    active: int,
    global: Entries,
    ips: Entries,
    targets: Entries,
    transport: Option<Transport>,
    transports: nat,
    waiting: map<Id, Waiting>,
    sending: map<Id, Sending>,
    history: History)

  /** What has happened: the latest clock reading, the admissions of each limiter, the slots taken and released. */
  datatype History = History(
    clock: int,
    gate: seq<Admission>,
    ips: seq<Admission>,
    targets: seq<Admission>,
    taken: nat,
    released: seq<Id>)

  datatype Outcome = Replied(reply: Reply) | Suspended(id: Id) | Done | Ignored

  /** One atomic step, with the clock readings it makes. */
  datatype Event =
    | Enter(request: Request, bindings: Bindings, t1: int, t2: int)
    | Upload(id: Id, body: Body, t1: int, t2: int)
    | Resume(id: Id, t1: int)
    | Finish(id: Id)

  function Start(clock: int): State {
    State(0, map[], map[], map[], None, 0, map[], map[], History(clock, [], [], [], 0, []))
  }

  // ---------------------------------------------------------------- the steps

  function EnterStep(s: State, request: Request, bindings: Bindings, t1: int, t2: int): (State, Outcome) {
    var s := s.(history := s.history.(clock := t2));
    if request.path != "/v1/send" then (s, Replied(Reply(404, NotFound)))
    else if request.verb != "POST" then (s, Replied(Reply(405, MethodNotAllowed)))
    else if s.active >= CONCURRENCY then (s, Replied(Reply(503, RelayBusy)))
    else
      var gateCall := Call(ISOLATE, ISOLATE_LIMIT, t1);
      var gate := Decide(s.global, 1, WINDOW_MS, gateCall);
      var s := s.(global := gate.entries,
        history := s.history.(gate := Record(s.history.gate, gate.admitted, gateCall)));
      if !gate.admitted then (s, Replied(Reply(429, RateLimited)))
      else
        var ipCall := Call(request.client, IP_LIMIT, t2);
        var ip := Decide(s.ips, MAX_ENTRIES, WINDOW_MS, ipCall);
        var s := s.(ips := ip.entries, history := s.history.(ips := Record(s.history.ips, ip.admitted, ipCall)));
        if !ip.admitted then (s, Replied(Reply(429, RateLimited)))
        else if bindings.config.None? || bindings.environments.None? then (s, Replied(Reply(503, RelayNotConfigured)))
        else if request.headerError.Some? then (s, Replied(request.headerError.value))
        else
          var id := s.history.taken;
          (s.(active := s.active + 1,
              waiting := s.waiting[id := Uploading(bindings.config.value, bindings.environments.value)],
              history := s.history.(taken := id + 1)),
           Suspended(id))
  }

  function Seconds(milliseconds: int): int {
    milliseconds / 1000
  }

  /** `readRequest`, once the body has been read. */
  function Judge(body: Body, environments: seq<string>, t1: int, t2: int): Judged {
    match body
    case TooLarge => Refused(Reply(413, RequestTooLarge))
    case TimedOut => Refused(Reply(408, RequestTimeout))
    case Unreadable => Refused(Reply(400, InvalidRequest))
    case Parsed(value) =>
      var request := Validate(value, Seconds(t1));
      if request.None? then Refused(Reply(400, InvalidRequest))
      else if request.value.environment !in environments then Refused(Reply(400, EnvironmentDisabled))
      else if request.value.expiresAt <= Seconds(t2) then Refused(Reply(200, Expired))
      else Accepted(request.value)
  }

  function UploadStep(s: State, id: Id, body: Body, t1: int, t2: int): (State, Outcome) {
    if id !in s.waiting || !s.waiting[id].Uploading? then (s, Ignored)
    else
      var flight := s.waiting[id];
      (s.(waiting := s.waiting[id := Ready(flight.config, Judge(body, flight.environments, t1, t2))],
          history := s.history.(clock := t2)),
       Suspended(id))
  }

  /** The end of every request that took a slot: the `finally` that gives it back. */
  function Release(s: State, id: Id): State {
    s.(active := s.active - 1,
       waiting := s.waiting - {id},
       sending := s.sending - {id},
       history := s.history.(released := s.history.released + [id]))
  }

  function TargetKey(request: SendRequest): string {
    request.environment + ":" + request.deviceToken
  }

  /** The hand-over to the transport, which is made anew when the configuration has changed. */
  function HandOver(s: State, id: Id, config: Config): State {
    var renewed := s.transport.None? || s.transport.value.config != config;
    var transport := if renewed then Transport(config, s.transports) else s.transport.value;
    s.(transport := Some(transport),
       transports := if renewed then s.transports + 1 else s.transports,
       waiting := s.waiting - {id},
       sending := s.sending[id := Sending(config, transport)])
  }

  /** The state once the target limiter has answered. */
  function Answered(s: State, target: Decision, call: Call): State {
    s.(targets := target.entries,
       history := s.history.(clock := call.now, targets := Record(s.history.targets, target.admitted, call)))
  }

  function ResumeStep(s: State, id: Id, t1: int): (State, Outcome) {
    if id !in s.waiting || !s.waiting[id].Ready? then (s, Ignored)
    else
      var flight := s.waiting[id];
      if flight.judged.Refused? then (Release(s.(history := s.history.(clock := t1)), id), Replied(flight.judged.reply))
      else
        var call := Call(TargetKey(flight.judged.request), TARGET_LIMIT, t1);
        var target := Decide(s.targets, MAX_ENTRIES, WINDOW_MS, call);
        var answered := Answered(s, target, call);
        if !target.admitted then (Release(answered, id), Replied(Reply(429, RateLimited)))
        else (HandOver(answered, id, flight.config), Suspended(id))
  }

  function FinishStep(s: State, id: Id): (State, Outcome) {
    if id !in s.sending then (s, Ignored) else (Release(s, id), Done)
  }

  function Step(s: State, event: Event): (State, Outcome) {
    match event
    case Enter(request, bindings, t1, t2) => EnterStep(s, request, bindings, t1, t2)
    case Upload(id, body, t1, t2) => UploadStep(s, id, body, t1, t2)
    case Resume(id, t1) => ResumeStep(s, id, t1)
    case Finish(id) => FinishStep(s, id)
  }

  /** The clock does not go back. */
  predicate Timely(s: State, event: Event) {
    match event
    case Enter(_, _, t1, t2) => s.history.clock <= t1 <= t2
    case Upload(_, _, t1, t2) => s.history.clock <= t1 <= t2
    case Resume(_, t1) => s.history.clock <= t1
    case Finish(_) => true
  }

  /** The states of all interleavings of any number of requests. */
  ghost predicate Reachable(s: State, events: seq<Event>, clock: int)
    decreases |events|
  {
    if events == [] then s == Start(clock)
    else
      var last := events[|events| - 1];
      exists before :: Reachable(before, events[..|events| - 1], clock) && Timely(before, last)
        && s == Step(before, last).0
  }

  // ---------------------------------------------------------------- the isolate that makes these steps

  /**
   * The state `createRelay` closes over. What a suspended request holds in its own local variables is passed to the
   * method that continues it.
   */
  class Isolate {
    var active: int
    const global: WindowLimiter
    const ips: WindowLimiter
    const targets: WindowLimiter
    var transport: Option<Transport>
    var transports: nat
    ghost var waiting: map<Id, Waiting>
    ghost var sending: map<Id, Sending>
    ghost var history: History

    ghost predicate Valid()
      reads this
    {
      && global != ips && global != targets && ips != targets
      && global.maxEntries == 1 && ips.maxEntries == targets.maxEntries == MAX_ENTRIES
      && global.windowMs == ips.windowMs == targets.windowMs == WINDOW_MS
    }

    ghost function Model(): State
      reads this, global, ips, targets
    {
      State(active, global.entries, ips.entries, targets.entries, transport, transports, waiting, sending, history)
    }

    constructor (ghost clock: int)
      ensures Valid() && Model() == Start(clock)
    {
      active := 0;
      global := new WindowLimiter(1, WINDOW_MS);
      ips := new WindowLimiter(MAX_ENTRIES, WINDOW_MS);
      targets := new WindowLimiter(MAX_ENTRIES, WINDOW_MS);
      transport := None;
      transports := 0;
      waiting, sending := map[], map[];
      history := History(clock, [], [], [], 0, []);
    }

    /** `fetch` up to the first `await`: a reply, or nothing if the request now holds a slot and reads its body. */
    method Fetch(request: Request, bindings: Bindings, t1: int, t2: int) returns (reply: Option<Reply>)
      requires Valid()
      modifies this, global, ips
      ensures Valid()
      ensures var (after, outcome) := EnterStep(old(Model()), request, bindings, t1, t2);
              Model() == after && reply == if outcome.Replied? then Some(outcome.reply) else None
    {
      hide Decide, Record;
      history := history.(clock := t2);
      if request.path != "/v1/send" {
        return Some(Reply(404, NotFound));
      }
      if request.verb != "POST" {
        return Some(Reply(405, MethodNotAllowed));
      }
      if active >= CONCURRENCY {
        return Some(Reply(503, RelayBusy));
      }
      var admitted := global.Allow(ISOLATE, ISOLATE_LIMIT, t1);
      history := history.(gate := Record(history.gate, admitted, Call(ISOLATE, ISOLATE_LIMIT, t1)));
      if admitted {
        admitted := ips.Allow(request.client, IP_LIMIT, t2);
        history := history.(ips := Record(history.ips, admitted, Call(request.client, IP_LIMIT, t2)));
      }
      if !admitted {
        return Some(Reply(429, RateLimited));
      }
      if bindings.config.None? || bindings.environments.None? {
        return Some(Reply(503, RelayNotConfigured));
      }
      if request.headerError.Some? {
        return request.headerError;
      }
      active := active + 1;
      waiting := waiting[history.taken := Uploading(bindings.config.value, bindings.environments.value)];
      history := history.(taken := history.taken + 1);
      return None;
    }

    /** `readRequest` after its `await`. */
    method ReadRequest(ghost id: Id, ghost config: Config, environments: seq<string>, body: Body, t1: int, t2: int)
      returns (judged: Judged)
      requires Valid() && id in waiting && waiting[id] == Uploading(config, environments)
      modifies this
      ensures Valid() && Model() == UploadStep(old(Model()), id, body, t1, t2).0
      ensures waiting[id] == Ready(config, judged)
    {
      history := history.(clock := t2);
      judged := Judge(body, environments, t1, t2);
      waiting := waiting[id := Ready(config, judged)];
    }

    /** The `finally`. */
    method GiveBack(ghost id: Id)
      requires Valid()
      modifies this
      ensures Valid() && Model() == Release(old(Model()), id)
    {
      active := active - 1;
      waiting, sending := waiting - {id}, sending - {id};
      history := history.(released := history.released + [id]);
    }

    /** `fetch` from the first `await` to the second: a reply, or nothing if the request was handed to the transport. */
    method Proceed(ghost id: Id, config: Config, judged: Judged, t1: int) returns (reply: Option<Reply>)
      requires Valid() && id in waiting && waiting[id] == Ready(config, judged)
      modifies this, targets
      ensures Valid()
      ensures var (after, outcome) := ResumeStep(old(Model()), id, t1);
              Model() == after && reply == if outcome.Replied? then Some(outcome.reply) else None
    {
      hide Decide, Record;
      history := history.(clock := t1);
      if judged.Refused? {
        GiveBack(id);
        return Some(judged.reply);
      }
      var key := TargetKey(judged.request);
      var admitted := targets.Allow(key, TARGET_LIMIT, t1);
      history := history.(targets := Record(history.targets, admitted, Call(key, TARGET_LIMIT, t1)));
      if !admitted {
        GiveBack(id);
        return Some(Reply(429, RateLimited));
      }
      Sender(config);
      waiting, sending := waiting - {id}, sending[id := Sending(config, transport.value)];
      return None;
    }

    /** `sender`: the transport in use, made anew when the configuration has changed. */
    method Sender(config: Config)
      requires Valid()
      modifies this`transport, this`transports
      ensures Valid() && transport.Some? && transport.value.config == config
      ensures if old(transport).Some? && old(transport).value.config == config
              then transport == old(transport) && transports == old(transports)
              else transport.value.serial == old(transports) && transports == old(transports) + 1
    {
      if transport.None? || transport.value.config != config {
        transport := Some(Transport(config, transports));
        transports := transports + 1;
      }
    }

    /** `fetch` after its second `await`. */
    method Deliver(ghost id: Id)
      requires Valid() && id in sending
      modifies this
      ensures Valid() && Model() == FinishStep(old(Model()), id).0
    {
      GiveBack(id);
    }
  }

  // ---------------------------------------------------------------- the invariant

  /** A limiter that agrees with its history and has kept its limit. */
  ghost predicate Limited(entries: Entries, log: seq<Admission>, maxEntries: nat, limit: nat, clock: int) {
    && Agrees(entries, log, maxEntries, WINDOW_MS, clock)
    && (forall k, w :: Count(log, WINDOW_MS, k, w) <= limit)
  }

  /** How many admissions a window can have seen, and that later windows have seen none. */
  ghost predicate Traffic(h: History, waiting: nat) {
    && (forall w :: Total(h.gate, WINDOW_MS, w) <= ISOLATE_LIMIT)
    && (forall w :: Total(h.ips, WINDOW_MS, w) <= Total(h.gate, WINDOW_MS, w) + 1)
    && (forall w :: Total(h.targets, WINDOW_MS, w) <= Total(h.gate, WINDOW_MS, w) + CONCURRENCY)
    && (forall w :: WindowOf(h.clock, WINDOW_MS) <= w ==>
         Total(h.targets, WINDOW_MS, w) + waiting <= Total(h.gate, WINDOW_MS, w) + CONCURRENCY)
    && (forall w :: WindowOf(h.clock, WINDOW_MS) < w ==>
         Total(h.gate, WINDOW_MS, w) == Total(h.ips, WINDOW_MS, w) == Total(h.targets, WINDOW_MS, w) == 0)
    && (forall w :: Total(h.gate, WINDOW_MS, w) == Count(h.gate, WINDOW_MS, ISOLATE, w))
  }

  /** Every slot taken is held by one request or was released once. */
  ghost predicate Slots(s: State) {
    && s.active == |s.waiting| + |s.sending| <= CONCURRENCY
    && s.waiting.Keys !! s.sending.Keys
    && (forall id :: id in s.waiting || id in s.sending ==> id < s.history.taken)
    && (forall id: Id :: multiset(s.history.released)[id]
                   == if id < s.history.taken && id !in s.waiting && id !in s.sending then 1 else 0)
  }

  /** A request only ever uses a transport made from its own configuration. */
  ghost predicate Transports(s: State) {
    && (forall id :: id in s.sending ==> s.sending[id].transport.config == s.sending[id].config)
    && (forall id :: id in s.sending ==> s.sending[id].transport.serial < s.transports)
    && (s.transport.Some? ==> s.transport.value.serial < s.transports)
  }

  /** What every step keeps. */
  ghost predicate Inv(s: State) {
    InvWith(s, |s.waiting|)
  }

  /** The invariant of a state in the middle of a step, which is about to have that many waiting requests. */
  ghost predicate InvWith(s: State, waiting: nat) {
    && Limited(s.global, s.history.gate, 1, ISOLATE_LIMIT, s.history.clock)
    && Limited(s.ips, s.history.ips, MAX_ENTRIES, IP_LIMIT, s.history.clock)
    && Limited(s.targets, s.history.targets, MAX_ENTRIES, TARGET_LIMIT, s.history.clock)
    && Traffic(s.history, waiting)
    && Slots(s)
    && Transports(s)
  }

  // ---------------------------------------------------------------- each step keeps it

  lemma LimiterStep(
    entries: Entries, log: seq<Admission>, maxEntries: nat, limit: nat, clock: int, key: string, now: int)
    requires Limited(entries, log, maxEntries, limit, clock) && 1 <= limit && clock <= now
    ensures var call := Call(key, limit, now);
            var d := Decide(entries, maxEntries, WINDOW_MS, call);
            var after := Record(log, d.admitted, call);
            && d.admitted == Admits(log, maxEntries, WINDOW_MS, call)
            && Limited(d.entries, after, maxEntries, limit, now)
            && (forall w :: Total(after, WINDOW_MS, w)
                         == Total(log, WINDOW_MS, w) + (if d.admitted && WindowOf(now, WINDOW_MS) == w then 1 else 0))
            && (forall w :: Count(after, WINDOW_MS, key, w) <= limit)
            && (forall w :: Count(after, WINDOW_MS, key, w)
                         == Count(log, WINDOW_MS, key, w)
                           + (if d.admitted && WindowOf(now, WINDOW_MS) == w then 1 else 0))
  {
    var call := Call(key, limit, now);
    DecideRefines(entries, log, maxEntries, WINDOW_MS, clock, call);
    CountAppend(log, Admission(key, now), WINDOW_MS);
  }

  lemma LimiterLater(entries: Entries, log: seq<Admission>, maxEntries: nat, limit: nat, clock: int, now: int)
    requires Limited(entries, log, maxEntries, limit, clock) && clock <= now
    ensures Limited(entries, log, maxEntries, limit, now)
  {
    SweepAgrees(entries, log, maxEntries, WINDOW_MS, clock, now);
  }

  lemma TrafficLater(h: History, waiting: nat, now: int)
    requires Traffic(h, waiting) && waiting <= CONCURRENCY && h.clock <= now
    ensures Traffic(h.(clock := now), waiting)
  {
    WindowMonotone(h.clock, now, WINDOW_MS);
  }

  /** A step that only lets time pass. */
  lemma Later(s: State, now: int)
    requires Inv(s) && s.history.clock <= now
    ensures Inv(s.(history := s.history.(clock := now)))
  {
    LimiterLater(s.global, s.history.gate, 1, ISOLATE_LIMIT, s.history.clock, now);
    LimiterLater(s.ips, s.history.ips, MAX_ENTRIES, IP_LIMIT, s.history.clock, now);
    LimiterLater(s.targets, s.history.targets, MAX_ENTRIES, TARGET_LIMIT, s.history.clock, now);
    TrafficLater(s.history, |s.waiting|, now);
  }

  /** One pass of the gate: at most one client admission for it, possibly a window later, and at most one new slot. */
  lemma TrafficEnter(h: History, after: History, waiting: nat, t1: int, gate: bool, ip: bool, slot: bool)
    requires Traffic(h, waiting) && h.clock <= t1 <= after.clock
    requires waiting < CONCURRENCY
    requires (slot ==> ip) && (ip ==> gate)
    requires after.targets == h.targets
    requires forall w :: Total(after.gate, WINDOW_MS, w)
                      == Total(h.gate, WINDOW_MS, w) + (if gate && WindowOf(t1, WINDOW_MS) == w then 1 else 0)
    requires forall w :: Count(after.gate, WINDOW_MS, ISOLATE, w)
                      == Count(h.gate, WINDOW_MS, ISOLATE, w) + (if gate && WindowOf(t1, WINDOW_MS) == w then 1 else 0)
    requires forall w :: Total(after.ips, WINDOW_MS, w)
                      == Total(h.ips, WINDOW_MS, w) + (if ip && WindowOf(after.clock, WINDOW_MS) == w then 1 else 0)
    requires forall w :: Count(after.gate, WINDOW_MS, ISOLATE, w) <= ISOLATE_LIMIT
    ensures Traffic(after, waiting + (if slot then 1 else 0))
  {
    WindowMonotone(h.clock, t1, WINDOW_MS);
    WindowMonotone(t1, after.clock, WINDOW_MS);
    hide WindowOf, Total, Count;
  }

  /** A request leaves the waiting ones: the target limiter may have admitted it. */
  lemma TrafficTarget(h: History, after: History, waiting: nat, target: bool)
    requires Traffic(h, waiting) && 1 <= waiting <= CONCURRENCY && h.clock <= after.clock
    requires after.gate == h.gate && after.ips == h.ips
    requires forall w :: Total(after.targets, WINDOW_MS, w)
                      == Total(h.targets, WINDOW_MS, w)
                        + (if target && WindowOf(after.clock, WINDOW_MS) == w then 1 else 0)
    ensures Traffic(after, waiting - 1)
  {
    WindowMonotone(h.clock, after.clock, WINDOW_MS);
    hide WindowOf, Total, Count;
  }

  function Taken(s: State, flight: Waiting): State {
    var id := s.history.taken;
    s.(active := s.active + 1, waiting := s.waiting[id := flight], history := s.history.(taken := id + 1))
  }

  lemma RoomForOne(s: State, flight: Waiting)
    requires Slots(s) && s.active < CONCURRENCY
    ensures |s.waiting| < CONCURRENCY && |Taken(s, flight).waiting| == |s.waiting| + 1
  {
    assert s.history.taken !in s.waiting;
  }

  lemma SlotTaken(s: State, flight: Waiting)
    requires Slots(s) && s.active < CONCURRENCY
    ensures Slots(Taken(s, flight))
  {
    var id := s.history.taken;
    RoomForOne(s, flight);
    assert id !in s.waiting && id !in s.sending;
  }

  lemma EnterLimits(s: State, request: Request, bindings: Bindings, t1: int, t2: int)
    requires Inv(s) && s.history.clock <= t1 <= t2
    ensures var after := EnterStep(s, request, bindings, t1, t2).0;
            && after.history.clock == t2
            && Limited(after.global, after.history.gate, 1, ISOLATE_LIMIT, t2)
            && Limited(after.ips, after.history.ips, MAX_ENTRIES, IP_LIMIT, t2)
            && Limited(after.targets, after.history.targets, MAX_ENTRIES, TARGET_LIMIT, t2)
  {
    hide Limited, Traffic, Slots, Transports, Decide, Record, Agrees, Admits, Total, Count, WindowOf;
    var h := s.history;
    LimiterLater(s.global, h.gate, 1, ISOLATE_LIMIT, h.clock, t2);
    LimiterLater(s.ips, h.ips, MAX_ENTRIES, IP_LIMIT, h.clock, t2);
    LimiterLater(s.targets, h.targets, MAX_ENTRIES, TARGET_LIMIT, h.clock, t2);
    LimiterStep(s.global, h.gate, 1, ISOLATE_LIMIT, h.clock, ISOLATE, t1);
    LimiterStep(s.ips, h.ips, MAX_ENTRIES, IP_LIMIT, h.clock, request.client, t2);
    var gateCall := Call(ISOLATE, ISOLATE_LIMIT, t1);
    var gate := Decide(s.global, 1, WINDOW_MS, gateCall);
    LimiterLater(gate.entries, Record(h.gate, gate.admitted, gateCall), 1, ISOLATE_LIMIT, t1, t2);
  }

  lemma EnterTraffic(s: State, request: Request, bindings: Bindings, t1: int, t2: int)
    requires Inv(s) && s.history.clock <= t1 <= t2
    ensures var after := EnterStep(s, request, bindings, t1, t2).0;
            Traffic(after.history, |after.waiting|)
  {
    hide Limited, Traffic, Slots, Transports, Decide, Record, Agrees, Admits, Total, Count, WindowOf;
    var h := s.history;
    SlotsBound(s);
    TrafficLater(h, |s.waiting|, t2);
    if request.path == "/v1/send" && request.verb == "POST" && s.active < CONCURRENCY {
      LimiterStep(s.global, h.gate, 1, ISOLATE_LIMIT, h.clock, ISOLATE, t1);
      LimiterStep(s.ips, h.ips, MAX_ENTRIES, IP_LIMIT, h.clock, request.client, t2);
      var gate := Decide(s.global, 1, WINDOW_MS, Call(ISOLATE, ISOLATE_LIMIT, t1));
      var ip := Decide(s.ips, MAX_ENTRIES, WINDOW_MS, Call(request.client, IP_LIMIT, t2));
      var (after, outcome) := EnterStep(s, request, bindings, t1, t2);
      var slot := outcome.Suspended?;
      RoomForOne(s, Uploading(Config("", "", "", ""), []));
      if slot {
        RoomForOne(s, Uploading(bindings.config.value, bindings.environments.value));
      }
      TrafficEnter(h, after.history, |s.waiting|, t1, gate.admitted, gate.admitted && ip.admitted, slot);
    }
  }

  lemma EnterSlots(s: State, request: Request, bindings: Bindings, t1: int, t2: int)
    requires Inv(s)
    ensures var after := EnterStep(s, request, bindings, t1, t2).0;
            Slots(after) && Transports(after)
  {
    hide Slots, Transports, Limited, Traffic, Decide;
    var (after, outcome) := EnterStep(s, request, bindings, t1, t2);
    if outcome.Suspended? {
      var flight := Uploading(bindings.config.value, bindings.environments.value);
      SlotTaken(s, flight);
      SameTransports(s, after);
      SameSlots(Taken(s, flight), after);
    } else {
      SameTransports(s, after);
      SameSlots(s, after);
    }
  }

  lemma EnterKeeps(s: State, request: Request, bindings: Bindings, t1: int, t2: int)
    requires Inv(s) && s.history.clock <= t1 <= t2
    ensures Inv(EnterStep(s, request, bindings, t1, t2).0)
  {
    EnterLimits(s, request, bindings, t1, t2);
    EnterTraffic(s, request, bindings, t1, t2);
    EnterSlots(s, request, bindings, t1, t2);
    hide EnterStep, Slots, Transports, Limited, Traffic;
  }

  lemma SlotsBound(s: State)
    requires Slots(s)
    ensures |s.waiting| <= CONCURRENCY && |s.waiting| + |s.sending| == s.active
  {
  }

  lemma SameTransports(s: State, after: State)
    requires Transports(s)
    requires after.sending == s.sending && after.transport == s.transport && after.transports == s.transports
    ensures Transports(after)
  {
  }

  /** Slots do not depend on the clock or on the limiters. */
  lemma SameSlots(s: State, after: State)
    requires Slots(s)
    requires after.active == s.active && after.waiting == s.waiting && after.sending == s.sending
    requires after.history.taken == s.history.taken && after.history.released == s.history.released
    ensures Slots(after)
  {
  }

  lemma RemoveKey<T>(m: map<Id, T>, id: Id)
    ensures |m - {id}| == if id in m then |m| - 1 else |m|
  {
    assert (m - {id}).Keys == m.Keys - {id};
    assert |m - {id}| == |(m - {id}).Keys| && |m| == |m.Keys|;
  }

  /** Giving a slot back touches nothing but the slots. */
  lemma SlotReleased(s: State, id: Id)
    requires Slots(s) && (id in s.waiting || id in s.sending)
    ensures Slots(Release(s, id))
    ensures |Release(s, id).waiting| == if id in s.waiting then |s.waiting| - 1 else |s.waiting|
    ensures Transports(s) ==> Transports(Release(s, id))
  {
    RemoveKey(s.waiting, id);
    RemoveKey(s.sending, id);
    assert multiset(s.history.released + [id]) == multiset(s.history.released) + multiset{id};
  }

  lemma UploadKeeps(s: State, id: Id, body: Body, t1: int, t2: int)
    requires Inv(s) && s.history.clock <= t1 <= t2
    ensures Inv(UploadStep(s, id, body, t1, t2).0)
  {
    hide Limited, Traffic, Transports, Judge;
    if id in s.waiting && s.waiting[id].Uploading? {
      Later(s, t2);
      var after := UploadStep(s, id, body, t1, t2).0;
      assert after.waiting.Keys == s.waiting.Keys;
      assert |after.waiting| == |after.waiting.Keys| && |s.waiting| == |s.waiting.Keys|;
      SameTransports(s, after);
    }
  }

  lemma ReleaseKeeps(s: State, id: Id)
    requires id in s.waiting || id in s.sending
    requires id in s.waiting ==> 1 <= |s.waiting|
    requires InvWith(s, if id in s.waiting then |s.waiting| - 1 else |s.waiting|)
    ensures Inv(Release(s, id))
  {
    hide Limited, Traffic, Slots, Transports;
    SlotReleased(s, id);
    SameTraffic(s.history, Release(s, id).history, |Release(s, id).waiting|);
  }

  lemma HandOverKeeps(s: State, id: Id, config: Config)
    requires id in s.waiting && 1 <= |s.waiting| && InvWith(s, |s.waiting| - 1)
    ensures Inv(HandOver(s, id, config))
  {
    hide Limited, Traffic, Slots, Transports;
    SlotHandedOver(s, id, config);
  }

  lemma FinishKeeps(s: State, id: Id)
    requires Inv(s)
    ensures Inv(FinishStep(s, id).0)
  {
    hide InvWith, Release;
    if id in s.sending {
      Disjoint(s, id);
      ReleaseKeeps(s, id);
    }
  }

  lemma Disjoint(s: State, id: Id)
    requires Inv(s) && id in s.sending
    ensures id !in s.waiting
  {
  }

  /** Traffic does not depend on the slots. */
  lemma SameTraffic(h: History, after: History, waiting: nat)
    requires Traffic(h, waiting)
    requires after.gate == h.gate && after.ips == h.ips && after.targets == h.targets && after.clock == h.clock
    ensures Traffic(after, waiting)
  {
  }

  /** From a waiting request to a sending one. */
  lemma SlotHandedOver(s: State, id: Id, config: Config)
    requires Slots(s) && id in s.waiting
    ensures Slots(HandOver(s, id, config))
    ensures |HandOver(s, id, config).waiting| == |s.waiting| - 1
    ensures Transports(s) ==> Transports(HandOver(s, id, config))
  {
    RemoveKey(s.waiting, id);
  }

  lemma ResumeRefused(s: State, id: Id, t1: int)
    requires Inv(s) && s.history.clock <= t1
    requires id in s.waiting
    ensures 1 <= |s.waiting| && InvWith(s.(history := s.history.(clock := t1)), |s.waiting| - 1)
  {
    hide Limited, Traffic, Slots, Transports;
    var later := s.(history := s.history.(clock := t1));
    Later(s, t1);
    WaitingPositive(s, id);
    TrafficTarget(s.history, later.history, |s.waiting|, false);
  }

  lemma WaitingPositive(s: State, id: Id)
    requires Slots(s) && id in s.waiting
    ensures 1 <= |s.waiting| <= CONCURRENCY
  {
    RemoveKey(s.waiting, id);
  }

  lemma ResumeAnswered(s: State, id: Id, key: string, t1: int)
    requires Inv(s) && s.history.clock <= t1 && id in s.waiting
    ensures var call := Call(key, TARGET_LIMIT, t1);
            var after := Answered(s, Decide(s.targets, MAX_ENTRIES, WINDOW_MS, call), call);
            1 <= |s.waiting| && InvWith(after, |s.waiting| - 1) && after.waiting == s.waiting
  {
    hide Limited, Traffic, Slots, Transports, Decide, Record, Agrees, Admits, Total, Count, WindowOf;
    var h := s.history;
    var call := Call(key, TARGET_LIMIT, t1);
    var target := Decide(s.targets, MAX_ENTRIES, WINDOW_MS, call);
    var after := Answered(s, target, call);
    LimiterLater(s.global, h.gate, 1, ISOLATE_LIMIT, h.clock, t1);
    LimiterLater(s.ips, h.ips, MAX_ENTRIES, IP_LIMIT, h.clock, t1);
    LimiterStep(s.targets, h.targets, MAX_ENTRIES, TARGET_LIMIT, h.clock, key, t1);
    WaitingPositive(s, id);
    TrafficTarget(h, after.history, |s.waiting|, target.admitted);
    SameSlots(s, after);
    SameTransports(s, after);
  }

  lemma ResumeKeeps(s: State, id: Id, t1: int)
    requires Inv(s) && s.history.clock <= t1
    ensures Inv(ResumeStep(s, id, t1).0)
  {
    hide InvWith, Decide, Record, Answered, Release, HandOver;
    if id in s.waiting && s.waiting[id].Ready? {
      var flight := s.waiting[id];
      if flight.judged.Refused? {
        ResumeRefused(s, id, t1);
        ReleaseKeeps(s.(history := s.history.(clock := t1)), id);
      } else {
        var call := Call(TargetKey(flight.judged.request), TARGET_LIMIT, t1);
        var target := Decide(s.targets, MAX_ENTRIES, WINDOW_MS, call);
        ResumeAnswered(s, id, call.key, t1);
        if target.admitted {
          HandOverKeeps(Answered(s, target, call), id, flight.config);
        } else {
          ReleaseKeeps(Answered(s, target, call), id);
        }
      }
    }
  }

  lemma StepKeeps(s: State, event: Event)
    requires Inv(s) && Timely(s, event)
    ensures Inv(Step(s, event).0)
  {
    hide Inv, EnterStep, UploadStep, ResumeStep, FinishStep;
    match event
    case Enter(request, bindings, t1, t2) => EnterKeeps(s, request, bindings, t1, t2);
    case Upload(id, body, t1, t2) => UploadKeeps(s, id, body, t1, t2);
    case Resume(id, t1) => ResumeKeeps(s, id, t1);
    case Finish(id) => FinishKeeps(s, id);
  }

  // ---------------------------------------------------------------- main results

  /** In every reachable state of every interleaving the invariant holds. */
  lemma {:induction false} ReachableInv(s: State, events: seq<Event>, clock: int)
    requires Reachable(s, events, clock)
    ensures Inv(s)
    decreases |events|
  {
    if events == [] {
      assert Inv(Start(clock));
    } else {
      var last := events[|events| - 1];
      var before :| Reachable(before, events[..|events| - 1], clock) && Timely(before, last)
        && s == Step(before, last).0;
      ReachableInv(before, events[..|events| - 1], clock);
      StepKeeps(before, last);
    }
  }

  /**
   * The slots: `active` counts the requests that hold one and is at most 32, and of all the slots ever taken each is
   * either held by exactly one request or has been released exactly once.
   */
  lemma SlotAccounting(s: State, events: seq<Event>, clock: int)
    requires Reachable(s, events, clock)
    ensures s.active == |s.waiting| + |s.sending| <= CONCURRENCY
    ensures s.waiting.Keys !! s.sending.Keys
    ensures forall id: Id :: id < s.history.taken ==>
              multiset(s.history.released)[id] == if id in s.waiting || id in s.sending then 0 else 1
    ensures forall id: Id :: s.history.taken <= id ==>
              multiset(s.history.released)[id] == 0 && id !in s.waiting && id !in s.sending
  {
    ReachableInv(s, events, clock);
  }

  /** How many steps a request that holds a slot still has to make. */
  function Rank(s: State, id: Id): nat {
    if id in s.sending then 1
    else if id !in s.waiting then 0
    else if s.waiting[id].Ready? then 2 else 3
  }

  function EventId(s: State, event: Event): Id {
    match event
    case Enter(_, _, _, _) => s.history.taken
    case Upload(id, _, _, _) => id
    case Resume(id, _) => id
    case Finish(id) => id
  }

  /** What a step says about the rank of each request and about the slots released. */
  ghost predicate Progress(s: State, event: Event, after: State, outcome: Outcome) {
    var own := EventId(s, event);
    && (forall id: Id :: id != own ==> Rank(after, id) == Rank(s, id))
    && (!event.Enter? && !outcome.Ignored? ==> Rank(after, own) < Rank(s, own))
    && (event.Enter? ==> after.history.released == s.history.released)
    && (event.Enter? && outcome.Replied? ==> after.active == s.active && Rank(after, own) == 0)
    && (outcome.Done? || (outcome.Replied? && !event.Enter?) ==>
         Rank(after, own) == 0 && after.history.released == s.history.released + [own])
    && (outcome.Suspended? ==> 0 < Rank(after, own) && after.history.released == s.history.released)
  }

  lemma EnterProgress(s: State, event: Event)
    requires event.Enter? && forall id :: id in s.waiting || id in s.sending ==> id < s.history.taken
    ensures var (after, outcome) := Step(s, event);
            Progress(s, event, after, outcome)
  {
    hide Decide, Record;
  }

  lemma ReleaseProgress(s: State, id: Id)
    ensures var after := Release(s, id);
            Rank(after, id) == 0 && forall other :: other != id ==> Rank(after, other) == Rank(s, other)
  {
  }

  lemma ResumeProgress(s: State, event: Event)
    requires event.Resume? && s.waiting.Keys !! s.sending.Keys
    ensures var (after, outcome) := Step(s, event);
            Progress(s, event, after, outcome)
  {
    hide Decide, Record;
    var id := event.id;
    if id in s.waiting && s.waiting[id].Ready? && s.waiting[id].judged.Accepted? {
      assert id !in s.sending;
      var call := Call(TargetKey(s.waiting[id].judged.request), TARGET_LIMIT, event.t1);
      var answered := Answered(s, Decide(s.targets, MAX_ENTRIES, WINDOW_MS, call), call);
      ReleaseProgress(answered, id);
    } else {
      ReleaseProgress(s.(history := s.history.(clock := event.t1)), id);
    }
  }

  lemma OtherProgress(s: State, event: Event)
    requires (event.Upload? || event.Finish?) && s.waiting.Keys !! s.sending.Keys
    ensures var (after, outcome) := Step(s, event);
            Progress(s, event, after, outcome)
  {
    hide Judge;
    if event.Finish? {
      ReleaseProgress(s, event.id);
    }
  }

  /** The step a request makes next brings it closer to giving its slot back, whatever its outcome; others stay put. */
  lemma EveryOutcomeReleases(s: State, event: Event)
    requires Inv(s)
    ensures var (after, outcome) := Step(s, event);
            Progress(s, event, after, outcome)
  {
    hide Limited, Traffic, Transports, Progress, Step;
    match event
    case Enter(_, _, _, _) => EnterProgress(s, event);
    case Resume(_, _) => ResumeProgress(s, event);
    case Upload(_, _, _, _) => OtherProgress(s, event);
    case Finish(_) => OtherProgress(s, event);
  }

  /** A request that holds a slot is never stuck: the step it waits for is not ignored. */
  lemma SomeStepApplies(s: State, id: Id, body: Body, t1: int, t2: int)
    requires 0 < Rank(s, id)
    ensures !Step(s, Upload(id, body, t1, t2)).1.Ignored? || !Step(s, Resume(id, t1)).1.Ignored?
            || !Step(s, Finish(id)).1.Ignored?
  {
    hide Decide, Judge, Answered, HandOver, Release;
  }

  /** A busy refusal is given exactly when 32 slots are taken, and spends no rate budget. */
  lemma BusySpendsNothing(s: State, request: Request, bindings: Bindings, t1: int, t2: int)
    requires Inv(s) && s.history.clock <= t1 <= t2
    requires request.headerError != Some(Reply(503, RelayBusy))
    ensures var (after, outcome) := EnterStep(s, request, bindings, t1, t2);
            && (outcome == Replied(Reply(503, RelayBusy))
                <==> request.path == "/v1/send" && request.verb == "POST" && |s.waiting| + |s.sending| == CONCURRENCY)
            && (outcome == Replied(Reply(503, RelayBusy)) ==> after == s.(history := s.history.(clock := t2)))
  {
    hide Limited, Traffic, Decide, Record;
  }

  /** The budgets of each window. */
  lemma WindowBudgets(s: State, events: seq<Event>, clock: int, window: int)
    requires Reachable(s, events, clock)
    ensures Total(s.history.gate, 60_000, window) <= 600
    ensures forall k :: Count(s.history.ips, 60_000, k, window) <= 120
    ensures forall k :: Count(s.history.targets, 60_000, k, window) <= 60
  {
    ReachableInv(s, events, clock);
  }

  /**
   * How many different keys a window can hold. One client admission can fall into the window after its gate
   * admission, because the two limiters read the clock separately; the requests waiting when a window starts can
   * reach the target limiter on top of those let in during it.
   */
  lemma WindowKeys(s: State, events: seq<Event>, clock: int, window: int)
    requires Reachable(s, events, clock)
    ensures |KeysIn(s.history.ips, WINDOW_MS, window)| <= ISOLATE_LIMIT + 1
    ensures |KeysIn(s.history.targets, WINDOW_MS, window)| <= ISOLATE_LIMIT + CONCURRENCY
  {
    ReachableInv(s, events, clock);
    KeysInCounted(s.history.ips, WINDOW_MS, window);
    KeysInCounted(s.history.targets, WINDOW_MS, window);
    hide Count, Total, KeysIn, WindowOf;
  }

  /** The decisions the relay's three limiters would make next. */
  lemma LimitersAreUnbounded(s: State, events: seq<Event>, clock: int, key: string, now: int)
    requires Reachable(s, events, clock) && s.history.clock <= now
    ensures Decide(s.global, 1, WINDOW_MS, Call(ISOLATE, ISOLATE_LIMIT, now)).admitted
            <==> Total(s.history.gate, WINDOW_MS, WindowOf(now, WINDOW_MS)) < ISOLATE_LIMIT
    ensures Decide(s.ips, MAX_ENTRIES, WINDOW_MS, Call(key, IP_LIMIT, now)).admitted
            <==> Count(s.history.ips, WINDOW_MS, key, WindowOf(now, WINDOW_MS)) < IP_LIMIT
    ensures Decide(s.targets, MAX_ENTRIES, WINDOW_MS, Call(key, TARGET_LIMIT, now)).admitted
            <==> Count(s.history.targets, WINDOW_MS, key, WindowOf(now, WINDOW_MS)) < TARGET_LIMIT
  {
    var h, window := s.history, WindowOf(now, WINDOW_MS);
    ReachableInv(s, events, clock);
    WindowKeys(s, events, clock, window);
    KeysInCounted(h.gate, WINDOW_MS, window);
    DecideRefines(s.global, h.gate, 1, WINDOW_MS, h.clock, Call(ISOLATE, ISOLATE_LIMIT, now));
    DecideRefines(s.ips, h.ips, MAX_ENTRIES, WINDOW_MS, h.clock, Call(key, IP_LIMIT, now));
    DecideRefines(s.targets, h.targets, MAX_ENTRIES, WINDOW_MS, h.clock, Call(key, TARGET_LIMIT, now));
    hide Decide, Count, Total, KeysIn, WindowOf;
  }

  /**
   * Who gets a slot, and what it costs, in terms of the unbounded counters: a refusal for a missing slot costs
   * nothing, one by the client's budget costs the isolate one admission, and the later refusals cost both budgets.
   */
  lemma WhoGetsASlot(
    s: State, events: seq<Event>, clock: int, request: Request, bindings: Bindings, t1: int, t2: int)
    requires Reachable(s, events, clock) && s.history.clock <= t1 <= t2
    ensures var (after, outcome) := EnterStep(s, request, bindings, t1, t2);
            var atGate := request.path == "/v1/send" && request.verb == "POST"
              && |s.waiting| + |s.sending| < CONCURRENCY;
            var pastGate := atGate && Total(s.history.gate, WINDOW_MS, WindowOf(t1, WINDOW_MS)) < ISOLATE_LIMIT;
            var pastIp := pastGate
              && Count(s.history.ips, WINDOW_MS, request.client, WindowOf(t2, WINDOW_MS)) < IP_LIMIT;
            && (outcome.Suspended?
                <==> pastIp && bindings.config.Some? && bindings.environments.Some? && request.headerError.None?)
            && after.history.gate == (if pastGate then s.history.gate + [Admission(ISOLATE, t1)] else s.history.gate)
            && after.history.ips == (if pastIp then s.history.ips + [Admission(request.client, t2)] else s.history.ips)
            && after.history.targets == s.history.targets
            && (outcome == Replied(Reply(429, RateLimited)) <== atGate && !pastIp)
  {
    LimitersAreUnbounded(s, events, clock, ISOLATE, t1);
    LimitersAreUnbounded(s, events, clock, request.client, t2);
    SlotAccounting(s, events, clock);
    hide Decide, Total, Count, WindowOf, Reachable;
  }

  /**
   * Who is handed to the transport: an accepted request whose target is under its budget, with its own configuration.
   */
  lemma WhoIsHandedOver(s: State, events: seq<Event>, clock: int, id: Id, config: Config, request: SendRequest, t1: int)
    requires Reachable(s, events, clock) && s.history.clock <= t1
    requires id in s.waiting && s.waiting[id] == Ready(config, Accepted(request))
    ensures var (after, outcome) := ResumeStep(s, id, t1);
            var under :=
              Count(s.history.targets, 60_000, TargetKey(request), WindowOf(t1, 60_000)) < 60;
            && (under ==> && id in after.sending && after.sending[id].config == config
                          && after.transport == Some(after.sending[id].transport)
                          && after.history.targets == s.history.targets + [Admission(TargetKey(request), t1)])
            && (under && s.transport.Some? && s.transport.value.config == config ==> after.transport == s.transport)
            && (!under ==> outcome == Replied(Reply(429, RateLimited)) && after.sending == s.sending - {id}
                           && after.history.targets == s.history.targets)
  {
    LimitersAreUnbounded(s, events, clock, TargetKey(request), t1);
    hide Decide, Count, WindowOf, Reachable;
  }

  /** What is accepted is for an enabled environment, is not expired, and expires within 30 minutes. */
  lemma AcceptedIsCurrent(value: Json, environments: seq<string>, t1: int, t2: int)
    requires t1 <= t2
    ensures var judged := Judge(Parsed(value), environments, t1, t2);
            judged.Accepted? ==>
              && Validate(value, Seconds(t1)) == Some(judged.request)
              && judged.request.environment in environments
              && judged.request.environment in {"sandbox", "production"}
              && Seconds(t2) < judged.request.expiresAt <= Seconds(t2) + 1800
  {
    WindowMonotone(t1, t2, 1000);
    assert Seconds(t1) <= Seconds(t2);
  }

  /** Each (environment, device token) pair has its own target key. */
  lemma TargetKeysDiffer(a: SendRequest, b: SendRequest)
    requires a.environment in {"sandbox", "production"} && b.environment in {"sandbox", "production"}
    requires TargetKey(a) == TargetKey(b)
    ensures a.environment == b.environment && a.deviceToken == b.deviceToken
  {
    assert TargetKey(a)[0] == a.environment[0] && TargetKey(b)[0] == b.environment[0];
    var n := |a.environment| + 1;
    assert a.deviceToken == TargetKey(a)[n..] && b.deviceToken == TargetKey(b)[n..];
  }
}
