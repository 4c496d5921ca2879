/**
 * The relay and its transports together: apps/push-relay/src/relay.ts and apps/push-relay/src/apns.ts, `send`.
 *
 * Relay and Transport are state machines of their own: the answer of a transport is any event of the relay, and a send
 * any event of a transport. Here they take their steps together. A request that the relay hands over begins its send in
 * the same step, as `send` runs up to its first `await`, and its client is told only what the transport says of that
 * send. For each request handed over the state keeps a `Job`: which send is its own, and which admission of the target
 * limiter it was charged. The invariant says that jobs share neither, and that what clients were told is so.
 */
module Delivery {
  import opened Limits
  import opened Wire
  import opened Wrappers
  import R = Relay
  import T = Transport
  import V = Verdicts

  /** A request that was handed over: its transport, its send there, and the target admission it was charged. */
  datatype Job = Job(request: SendRequest, serial: nat, send: T.Id, charge: nat)

  /** The relay, its transports, the requests handed over, and what their clients have been told of them. */
  datatype State = State(relay: R.State, apns: map<nat, T.State>, jobs: map<R.Id, Job>, told: map<R.Id, T.Verdict>)

  datatype Event =
    | Enter(request: R.Request, bindings: R.Bindings, t1: int, t2: int)
    | Upload(id: R.Id, body: R.Body, t1: int, t2: int)
    | Resume(id: R.Id, t1: int, aborted: bool, s1: int, s2: int, wellFormed: bool)
    | Apns(serial: nat, event: T.Event)
    | Tell(id: R.Id)

  function Start(clock: int): State {
    State(R.Start(clock), map[], map[], map[])
  }

  /** The relay hands a request over, and the transport begins its send in the same step. */
  function ResumeStep(s: State, id: R.Id, t1: int, aborted: bool, s1: int, s2: int, wellFormed: bool): State {
    var (after, outcome) := R.ResumeStep(s.relay, id, t1);
    if !outcome.Suspended? || id !in after.sending || id !in s.relay.waiting then s.(relay := after)
    else
      var waiting := s.relay.waiting[id];
      if !waiting.Ready? || !waiting.judged.Accepted? then s.(relay := after)
      else
        var request, serial := waiting.judged.request, after.sending[id].transport.serial;
        var t := if serial in s.apns then s.apns[serial] else T.Initial(wellFormed, s1);
        s.(relay := after,
           apns := s.apns[serial := T.Step(t, T.Begin(request.expiresAt, aborted, s1, s2))],
           jobs := s.jobs[id := Job(request, serial, t.started, |s.relay.history.targets|)])
  }

  /** The send that was begun for a request. */
  function SendOf(apns: map<nat, T.State>, job: Job): Option<T.Send> {
    if job.serial in apns && job.send in apns[job.serial].sends then Some(apns[job.serial].sends[job.send]) else None
  }

  /** What the transport says of a request, once it does. */
  function VerdictOf(apns: map<nat, T.State>, job: Job): Option<T.Verdict> {
    var send := SendOf(apns, job);
    if send.Some? then send.value.verdict else None
  }

  /** The transport has a verdict for a request, and the client is told. */
  function TellStep(s: State, id: R.Id): State {
    if id !in s.relay.sending || id !in s.jobs || VerdictOf(s.apns, s.jobs[id]).None? then s
    else
      s.(relay := R.FinishStep(s.relay, id).0, told := s.told[id := VerdictOf(s.apns, s.jobs[id]).value])
  }

  function Step(s: State, event: Event): State {
    match event
    case Enter(request, bindings, t1, t2) => s.(relay := R.EnterStep(s.relay, request, bindings, t1, t2).0)
    case Upload(id, body, t1, t2) => s.(relay := R.UploadStep(s.relay, id, body, t1, t2).0)
    case Resume(id, t1, aborted, s1, s2, wellFormed) => ResumeStep(s, id, t1, aborted, s1, s2, wellFormed)
    case Apns(serial, event) =>
      if serial !in s.apns || event.Begin? then s else s.(apns := s.apns[serial := T.Step(s.apns[serial], event)])
    case Tell(id) => TellStep(s, id)
  }

  function Run(clock: int, events: seq<Event>): State {
    if events == [] then Start(clock) else Step(Run(clock, events[..|events| - 1]), events[|events| - 1])
  }

  // ---------------------------------------------------------------- the invariant

  /** Each transport keeps its own invariant, and provider verdicts belong to sends that went out. */
  ghost predicate Transports(apns: map<nat, T.State>) {
    forall serial :: serial in apns ==> T.Inv(apns[serial]) && T.Grounded(apns[serial]) && V.AllTold(apns[serial])
  }

  predicate Charged(log: seq<Admission>, job: Job) {
    job.charge < |log| && log[job.charge].key == R.TargetKey(job.request)
  }

  /** A request that was handed over has its send, with its expiry, and was charged to its target. */
  predicate IsJob(apns: map<nat, T.State>, log: seq<Admission>, job: Job) {
    && SendOf(apns, job).Some? && SendOf(apns, job).value.expires == job.request.expiresAt
    && Charged(log, job)
  }

  predicate Apart(a: Job, b: Job) {
    a.charge != b.charge && (a.serial != b.serial || a.send != b.send)
  }

  /** No two requests share a send or an admission. */
  ghost predicate Jobs(apns: map<nat, T.State>, log: seq<Admission>, jobs: map<R.Id, Job>) {
    && (forall id :: id in jobs ==> IsJob(apns, log, jobs[id]))
    && (forall a, b :: a in jobs && b in jobs && a != b ==> Apart(jobs[a], jobs[b]))
  }

  ghost predicate TellsTruth(apns: map<nat, T.State>, jobs: map<R.Id, Job>, told: map<R.Id, T.Verdict>) {
    forall id :: id in told ==> id in jobs && VerdictOf(apns, jobs[id]) == Some(told[id])
  }

  /** A request that was handed over does not wait any more. */
  ghost predicate HandedOver(relay: R.State, jobs: map<R.Id, Job>) {
    && (forall id :: id in jobs ==> id !in relay.waiting && id < relay.history.taken)
    && (forall id :: id in relay.waiting ==> id < relay.history.taken)
  }

  ghost predicate Inv(s: State) {
    && Transports(s.apns) && Jobs(s.apns, s.relay.history.targets, s.jobs) && TellsTruth(s.apns, s.jobs, s.told)
    && HandedOver(s.relay, s.jobs)
  }

  // ---------------------------------------------------------------- each step keeps it

  lemma Fresh(wellFormed: bool, clock: int)
    ensures T.Inv(T.Initial(wellFormed, clock)) && T.Grounded(T.Initial(wellFormed, clock))
    ensures V.AllTold(T.Initial(wellFormed, clock))
  {
  }

  /** Every send is still there, with its expiry, and with its verdict once it has one. */
  ghost predicate Extends(before: map<nat, T.State>, after: map<nat, T.State>) {
    forall job :: SendOf(before, job).Some? ==>
      && SendOf(after, job).Some? && SendOf(after, job).value.expires == SendOf(before, job).value.expires
      && (VerdictOf(before, job).Some? ==> VerdictOf(after, job) == VerdictOf(before, job))
  }

  lemma JobsExtend(
    before: map<nat, T.State>, after: map<nat, T.State>, log: seq<Admission>, more: seq<Admission>,
    jobs: map<R.Id, Job>,
    told: map<R.Id, T.Verdict>)
    requires Extends(before, after) && log <= more && Jobs(before, log, jobs) && TellsTruth(before, jobs, told)
    ensures Jobs(after, more, jobs) && TellsTruth(after, jobs, told)
  {
    hide SendOf, Apart, R.TargetKey;
  }

  lemma TransportExtends(apns: map<nat, T.State>, serial: nat, event: T.Event)
    requires serial in apns && T.Inv(apns[serial])
    ensures Extends(apns, apns[serial := T.Step(apns[serial], event)])
  {
    var t := apns[serial];
    hide T.Step, T.Inv;
    forall id | id in t.sends
      ensures id in T.Step(t, event).sends && T.Step(t, event).sends[id].expires == t.sends[id].expires
      ensures t.sends[id].verdict.Some? ==> T.Step(t, event).sends[id].verdict == t.sends[id].verdict
    {
      T.SendStays(t, event, id);
    }
  }

  lemma TransportMoves(apns: map<nat, T.State>, serial: nat, event: T.Event)
    requires Transports(apns) && serial in apns
    ensures Transports(apns[serial := T.Step(apns[serial], event)])
  {
    hide T.Step, T.Inv, T.Grounded, V.AllTold;
    T.StepKeeps(apns[serial], event);
    T.StepGrounded(apns[serial], event);
    V.StepTold(apns[serial], event);
  }

  /** A transport that has not been used yet. */
  lemma TransportStarts(apns: map<nat, T.State>, serial: nat, wellFormed: bool, clock: int)
    requires Transports(apns) && serial !in apns
    ensures Transports(apns[serial := T.Initial(wellFormed, clock)])
    ensures Extends(apns, apns[serial := T.Initial(wellFormed, clock)])
  {
    Fresh(wellFormed, clock);
    hide T.Inv, T.Grounded, V.AllTold;
  }

  lemma ApnsKeeps(s: State, serial: nat, event: T.Event)
    requires Inv(s)
    ensures Inv(Step(s, Apns(serial, event)))
  {
    if serial in s.apns {
      TransportMoves(s.apns, serial, event);
      TransportExtends(s.apns, serial, event);
      JobsExtend(
        s.apns, s.apns[serial := T.Step(s.apns[serial], event)], s.relay.history.targets, s.relay.history.targets,
        s.jobs, s.told);
      hide Transports, Jobs, TellsTruth, HandedOver, Extends;
    }
  }

  /** The relay's own steps charge no target but in a hand-over, and make no request wait again. */
  lemma RelayMoves(relay: R.State, after: R.State, jobs: map<R.Id, Job>)
    requires HandedOver(relay, jobs) && relay.history.taken <= after.history.taken
    requires forall id :: id in after.waiting ==>
               id < after.history.taken && (id in relay.waiting || relay.history.taken <= id)
    ensures HandedOver(after, jobs)
  {
  }

  lemma EnterAside(relay: R.State, request: R.Request, bindings: R.Bindings, t1: int, t2: int)
    requires forall id :: id in relay.waiting ==> id < relay.history.taken
    ensures var after := R.EnterStep(relay, request, bindings, t1, t2).0;
            && after.history.targets == relay.history.targets && relay.history.taken <= after.history.taken
            && (forall id :: id in after.waiting ==>
                  id < after.history.taken && (id in relay.waiting || relay.history.taken <= id))
  {
    hide Decide, Record;
  }

  lemma ResumeAside(relay: R.State, id: R.Id, t1: int)
    ensures var (after, outcome) := R.ResumeStep(relay, id, t1);
            && after.history.taken == relay.history.taken
            && (forall other :: other in after.waiting ==> other in relay.waiting)
            && (outcome.Suspended? ==>
                  && id in relay.waiting && relay.waiting[id].Ready? && relay.waiting[id].judged.Accepted?
                  && id !in after.waiting && id in after.sending
                  && after.history.targets
                     == relay.history.targets + [Admission(R.TargetKey(relay.waiting[id].judged.request), t1)])
            && relay.history.targets <= after.history.targets
  {
    hide Decide, R.TargetKey;
  }

  lemma BegunSend(t: T.State, expires: int, aborted: bool, s1: int, s2: int)
    requires T.Inv(t)
    ensures t.started !in t.sends
    ensures var after := T.Step(t, T.Begin(expires, aborted, s1, s2));
            t.started in after.sends && after.sends[t.started].expires == expires
  {
    hide T.Minting, T.Keys, T.Sending, T.Authorize;
  }

  /** A new request among those handed over. */
  lemma OneMoreJob(
    apns: map<nat, T.State>, log: seq<Admission>, jobs: map<R.Id, Job>, told: map<R.Id, T.Verdict>, id: R.Id, job: Job)
    requires Jobs(apns, log, jobs) && TellsTruth(apns, jobs, told) && id !in jobs && IsJob(apns, log, job)
    requires forall other :: other in jobs ==> Apart(jobs[other], job)
    ensures Jobs(apns, log, jobs[id := job]) && TellsTruth(apns, jobs[id := job], told)
  {
    hide IsJob, VerdictOf;
  }

  /** The transport of a hand-over has begun the request's send, which no request had before. */
  lemma HandOverBegins(
    before: map<nat, T.State>, apns: map<nat, T.State>, log: seq<Admission>, jobs: map<R.Id, Job>,
    told: map<R.Id, T.Verdict>,
    id: R.Id, request: SendRequest, serial: nat, begin: T.Event, charged: Admission)
    requires Transports(apns) && Extends(before, apns) && serial in apns && id !in jobs
    requires Jobs(before, log, jobs) && TellsTruth(before, jobs, told)
    requires begin.Begin? && begin.expires == request.expiresAt && charged.key == R.TargetKey(request)
    ensures var after := apns[serial := T.Step(apns[serial], begin)];
            var more := jobs[id := Job(request, serial, apns[serial].started, |log|)];
            Transports(after) && Jobs(after, log + [charged], more) && TellsTruth(after, more, told)
  {
    var t := apns[serial];
    var after := apns[serial := T.Step(t, begin)];
    var job := Job(request, serial, t.started, |log|);
    JobsExtend(before, apns, log, log, jobs, told);
    forall other | other in jobs
      ensures Apart(jobs[other], job)
    {
      assert IsJob(apns, log, jobs[other]);
      BegunSend(t, begin.expires, begin.aborted, begin.t1, begin.t2);
    }
    BegunSend(t, begin.expires, begin.aborted, begin.t1, begin.t2);
    assert IsJob(after, log + [charged], job);
    hide T.Step, T.Inv, T.Grounded, IsJob, Apart, SendOf, VerdictOf, R.TargetKey, Jobs, TellsTruth, Extends, Transports;
    TransportMoves(apns, serial, begin);
    TransportExtends2(apns, serial, begin);
    JobsExtend(apns, after, log, log + [charged], jobs, told);
    OneMoreJob(after, log + [charged], jobs, told, id, job);
  }

  lemma TransportExtends2(apns: map<nat, T.State>, serial: nat, event: T.Event)
    requires serial in apns && Transports(apns)
    ensures Extends(apns, apns[serial := T.Step(apns[serial], event)])
  {
    hide T.Step, T.Inv, T.Grounded, Extends;
    TransportExtends(apns, serial, event);
  }

  lemma InvOf(relay: R.State, apns: map<nat, T.State>, jobs: map<R.Id, Job>, told: map<R.Id, T.Verdict>)
    requires Transports(apns) && Jobs(apns, relay.history.targets, jobs) && TellsTruth(apns, jobs, told)
    requires HandedOver(relay, jobs)
    ensures Inv(State(relay, apns, jobs, told))
  {
  }

  lemma InvParts(s: State)
    requires Inv(s)
    ensures Transports(s.apns) && Jobs(s.apns, s.relay.history.targets, s.jobs) && TellsTruth(s.apns, s.jobs, s.told)
  {
  }

  lemma OneMoreHandedOver(relay: R.State, jobs: map<R.Id, Job>, id: R.Id, job: Job)
    requires HandedOver(relay, jobs) && id !in relay.waiting && id < relay.history.taken
    ensures HandedOver(relay, jobs[id := job])
  {
  }

  lemma RefusedKeeps(s: State, after: R.State)
    requires Inv(s) && s.relay.history.targets <= after.history.targets && HandedOver(after, s.jobs)
    ensures Inv(s.(relay := after))
  {
    hide Transports, Jobs, TellsTruth, HandedOver, Extends;
    ExtendsItself(s.apns);
    JobsExtend(s.apns, s.apns, s.relay.history.targets, after.history.targets, s.jobs, s.told);
  }

  /** The transport of a hand-over, if it had not been used before. */
  function Ready(apns: map<nat, T.State>, serial: nat, wellFormed: bool, clock: int): map<nat, T.State> {
    if serial in apns then apns else apns[serial := T.Initial(wellFormed, clock)]
  }

  lemma ReadyExtends(apns: map<nat, T.State>, serial: nat, wellFormed: bool, clock: int)
    requires Transports(apns)
    ensures var ready := Ready(apns, serial, wellFormed, clock);
            serial in ready && Transports(ready) && Extends(apns, ready)
  {
    hide T.Initial, Transports, Extends;
    if serial in apns {
      ExtendsItself(apns);
    } else {
      TransportStarts(apns, serial, wellFormed, clock);
    }
  }

  lemma HandOverKeeps(
    s: State, after: R.State, id: R.Id, request: SendRequest, serial: nat, wellFormed: bool, clock: int, begin: T.Event,
    charged: Admission)
    requires Inv(s) && id !in s.jobs && begin.Begin? && begin.expires == request.expiresAt
    requires charged.key == R.TargetKey(request) && after.history.targets == s.relay.history.targets + [charged]
    requires HandedOver(after, s.jobs) && id !in after.waiting && id < after.history.taken
    ensures var ready := Ready(s.apns, serial, wellFormed, clock);
            && serial in ready
            && var job := Job(request, serial, ready[serial].started, |s.relay.history.targets|);
               Inv(State(after, ready[serial := T.Step(ready[serial], begin)], s.jobs[id := job], s.told))
  {
    var log := s.relay.history.targets;
    var ready := Ready(s.apns, serial, wellFormed, clock);
    hide *;
    InvParts(s);
    ReadyExtends(s.apns, serial, wellFormed, clock);
    var job := Job(request, serial, ready[serial].started, |log|);
    OneMoreHandedOver(after, s.jobs, id, job);
    HandOverBegins(s.apns, ready, log, s.jobs, s.told, id, request, serial, begin, charged);
    InvOf(after, ready[serial := T.Step(ready[serial], begin)], s.jobs[id := job], s.told);
  }

  lemma ResumeStepIs(s: State, id: R.Id, t1: int, aborted: bool, s1: int, s2: int, wellFormed: bool)
    ensures var (after, outcome) := R.ResumeStep(s.relay, id, t1);
            var resumed := ResumeStep(s, id, t1, aborted, s1, s2, wellFormed);
            if outcome.Suspended? then
              && id in s.relay.waiting && s.relay.waiting[id].Ready? && s.relay.waiting[id].judged.Accepted?
              && id in after.sending
              && var request, serial := s.relay.waiting[id].judged.request, after.sending[id].transport.serial;
                 var ready := Ready(s.apns, serial, wellFormed, s1);
                 var begin := T.Begin(request.expiresAt, aborted, s1, s2);
                 && serial in ready
                 && resumed == State(
                      after, ready[serial := T.Step(ready[serial], begin)],
                      s.jobs[id := Job(request, serial, ready[serial].started, |s.relay.history.targets|)], s.told)
            else resumed == s.(relay := after)
  {
    var (after, outcome) := R.ResumeStep(s.relay, id, t1);
    ResumeAside(s.relay, id, t1);
    hide R.ResumeStep, T.Step, T.Initial, R.TargetKey;
    if outcome.Suspended? {
      var request, serial := s.relay.waiting[id].judged.request, after.sending[id].transport.serial;
      var t := if serial in s.apns then s.apns[serial] else T.Initial(wellFormed, s1);
      SetTwice(s.apns, serial, T.Initial(wellFormed, s1), T.Step(t, T.Begin(request.expiresAt, aborted, s1, s2)));
    }
  }

  lemma ResumeKeeps(s: State, id: R.Id, t1: int, aborted: bool, s1: int, s2: int, wellFormed: bool)
    requires Inv(s)
    ensures Inv(ResumeStep(s, id, t1, aborted, s1, s2, wellFormed))
  {
    var (after, outcome) := R.ResumeStep(s.relay, id, t1);
    assert HandedOver(s.relay, s.jobs);
    assert forall other :: other in s.relay.waiting ==> other !in s.jobs && other < s.relay.history.taken;
    ResumeAside(s.relay, id, t1);
    hide *;
    RelayMoves(s.relay, after, s.jobs);
    ResumeStepIs(s, id, t1, aborted, s1, s2, wellFormed);
    if outcome.Suspended? {
      var request, serial := s.relay.waiting[id].judged.request, after.sending[id].transport.serial;
      HandOverKeeps(
        s, after, id, request, serial, wellFormed, s1, T.Begin(request.expiresAt, aborted, s1, s2),
        Admission(R.TargetKey(request), t1));
    } else {
      RefusedKeeps(s, after);
    }
  }

  lemma ExtendsItself(apns: map<nat, T.State>)
    ensures Extends(apns, apns)
  {
  }

  lemma SetTwice<K, V>(m: map<K, V>, k: K, v: V, w: V)
    ensures m[k := v][k := w] == m[k := w]
  {
  }

  lemma TellKeeps(s: State, id: R.Id)
    requires Inv(s)
    ensures Inv(TellStep(s, id))
  {
    hide Transports, Jobs;
    RelayMoves(s.relay, R.FinishStep(s.relay, id).0, s.jobs);
    hide HandedOver, VerdictOf;
  }

  lemma StepKeeps(s: State, event: Event)
    requires Inv(s)
    ensures Inv(Step(s, event))
  {
    match event
    case Enter(request, bindings, t1, t2) =>
      EnterAside(s.relay, request, bindings, t1, t2);
      hide R.EnterStep, Jobs, TellsTruth, Transports;
      RelayMoves(s.relay, R.EnterStep(s.relay, request, bindings, t1, t2).0, s.jobs);
    case Upload(id, body, t1, t2) =>
      hide R.Judge, Jobs, TellsTruth, Transports;
      RelayMoves(s.relay, R.UploadStep(s.relay, id, body, t1, t2).0, s.jobs);
    case Resume(id, t1, aborted, s1, s2, wellFormed) => ResumeKeeps(s, id, t1, aborted, s1, s2, wellFormed);
    case Apns(serial, e) => ApnsKeeps(s, serial, e);
    case Tell(id) => TellKeeps(s, id);
  }

  lemma {:induction false} RunKeeps(clock: int, events: seq<Event>)
    ensures Inv(Run(clock, events))
  {
    if events == [] {
    } else {
      RunKeeps(clock, events[..|events| - 1]);
      StepKeeps(Run(clock, events[..|events| - 1]), events[|events| - 1]);
      hide Inv, Step;
    }
  }

  // ---------------------------------------------------------------- main results

  /** The only times a send went out. */
  predicate WentOutAt(apns: map<nat, T.State>, job: Job, i: nat) {
    job.serial in apns && i < |apns[job.serial].network| && apns[job.serial].network[i].send == job.send
  }

  lemma SentOnce(t: T.State, send: T.Id) returns (i: nat)
    requires T.Inv(t) && T.Grounded(t) && send in t.sends
    requires t.sends[send].verdict.Some? && T.FromProvider(t.sends[send].verdict.value)
    ensures i < |t.network| && t.network[i].send == send
    ensures forall j :: 0 <= j < |t.network| && t.network[j].send == send ==> j == i
    ensures t.network[i].at < t.sends[send].expires && t.network[i].token in t.mints
  {
    hide T.SingleFlight, T.Minting, T.Keys;
    assert T.WentOut(t, send);
    i :| 0 <= i < |t.network| && t.network[i].send == send;
  }

  lemma ToldJob(s: State, id: R.Id)
    requires Inv(s) && id in s.told
    ensures id in s.jobs && s.jobs[id].serial in s.apns && Charged(s.relay.history.targets, s.jobs[id])
    ensures var job := s.jobs[id];
            var t := s.apns[job.serial];
            && T.Inv(t) && T.Grounded(t) && V.AllTold(t)
            && job.send in t.sends && t.sends[job.send].verdict == Some(s.told[id])
            && t.sends[job.send].expires == job.request.expiresAt
  {
    assert IsJob(s.apns, s.relay.history.targets, s.jobs[id]);
    hide T.Inv, T.Grounded, V.AllTold, Apart, Charged, HandedOver;
  }

  lemma ToldAnswers(t: T.State, send: T.Id)
    requires V.AllTold(t) && send in t.sends
    requires t.sends[send].verdict.Some? && T.FromProvider(t.sends[send].verdict.value)
    ensures !t.sends[send].story.aborted && V.Answers(t.sends[send].story.reply, t.sends[send].verdict.value)
  {
    V.OneTold(t, send);
    V.ToldIsDue(t.sends[send], T.WentOut(t, send));
    hide V.AllTold, V.Answers, T.FromProvider;
  }

  /**
   * In every run, a client is told a provider's verdict, a delivery in particular, only of a request that was charged
   * to its target's budget and went out exactly once, before it expired and with a token that was made; and only if the
   * provider's answer to that means it: that it was accepted, for a status of 200 alone.
   */
  lemma ToldOnlyOfDeliveries(clock: int, events: seq<Event>, id: R.Id) returns (i: nat)
    requires var s := Run(clock, events); id in s.told && T.FromProvider(s.told[id])
    ensures var s := Run(clock, events);
            && id in s.jobs && Charged(s.relay.history.targets, s.jobs[id])
            && WentOutAt(s.apns, s.jobs[id], i) && (forall j: nat :: WentOutAt(s.apns, s.jobs[id], j) ==> j == i)
            && var sent := s.apns[s.jobs[id].serial].network[i];
               sent.at < s.jobs[id].request.expiresAt && sent.token in s.apns[s.jobs[id].serial].mints
    ensures var s := Run(clock, events);
            && SendOf(s.apns, s.jobs[id]).Some?
            && var story := SendOf(s.apns, s.jobs[id]).value.story;
               && !story.aborted && V.Answers(story.reply, s.told[id])
               && (s.told[id] == T.Accepted <==> story.reply.value.status == 200)
  {
    var s := Run(clock, events);
    RunKeeps(clock, events);
    hide Run, Inv, Charged, T.FromProvider, T.Inv, T.Grounded, V.AllTold;
    ToldJob(s, id);
    ToldAnswers(s.apns[s.jobs[id].serial], s.jobs[id].send);
    i := SentOnce(s.apns[s.jobs[id].serial], s.jobs[id].send);
  }

  /** No two requests handed over share an admission or a send, so each delivery has a charge of its own. */
  lemma ChargesAreApart(clock: int, events: seq<Event>, a: R.Id, b: R.Id)
    requires var s := Run(clock, events); a in s.jobs && b in s.jobs && a != b
    ensures var s := Run(clock, events); Apart(s.jobs[a], s.jobs[b])
  {
    RunKeeps(clock, events);
  }
}
