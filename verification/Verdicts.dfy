/** What each send is told, by what happened to it: apps/push-relay/src/apns.ts, `send` and `classify`. */
module Verdicts {
  import opened Transport
  import opened Wrappers

  // ---------------------------------------------------------------- what a send should be told

  /** The expiry had not come at any reading of the clock. */
  predicate InTime(story: Story, expires: int) {
    forall i :: 0 <= i < |story.readings| ==> story.readings[i] < expires
  }

  /** What an answer means, by its status and then by its reason. */
  function Meaning(reply: Reply): Verdict {
    match reply
    case Lost => NetworkUnavailable
    case Responded(status, reason) =>
      if status == 200 then Accepted
      else if status == 429 || 500 <= status <= 599 then Retryable
      else if status == 410 && reason == "Unregistered" then Unregistered
      else if 200 < status < 500 then if reason == "BadDeviceToken" then Mismatch else Rejection
      else NetworkUnavailable
  }

  /** An abort that comes before everything else decides; then the expiry, the token, and the answer. */
  function Due(story: Story, expires: int): Option<Verdict> {
    if story.aborted then Some(NetworkUnavailable)
    else if !InTime(story, expires) then Some(Expired)
    else if story.unauthorized then Some(NotConfigured)
    else if story.reply.Some? then Some(Meaning(story.reply.value))
    else None
  }

  // ---------------------------------------------------------------- the invariant

  /** A send has the verdict that is due, and its story fits where it is and whether it went out. */
  predicate IsTold(send: Send, out: bool) {
    var story := send.story;
    && send.verdict == Due(story, send.expires)
    && 1 <= |story.readings| <= 2
    && (out <==> |story.readings| == 2 && InTime(story, send.expires))
    && (story.reply.Some? ==> out && !story.unauthorized)
    && (story.unauthorized || story.aborted ==> InTime(story, send.expires))
    && match send.stage
       case Over => send.verdict.Some?
       case OnWire => out && !story.unauthorized && story.reply.None?
       case _ => |story.readings| == 1 && InTime(story, send.expires) && !story.unauthorized && story.reply.None?
  }

  ghost predicate AllTold(s: State) {
    forall id :: id in s.sends ==> IsTold(s.sends[id], WentOut(s, id))
  }

  lemma ReadMore(story: Story, t: int, expires: int)
    ensures InTime(story.(readings := story.readings + [t]), expires) <==> InTime(story, expires) && t < expires
    ensures story.readings == [] ==> story.readings + [t] == [t] && InTime(story, expires)
  {
    var more := story.(readings := story.readings + [t]);
    assert forall i :: 0 <= i < |story.readings| ==> more.readings[i] == story.readings[i];
    assert more.readings[|story.readings|] == t;
  }

  lemma SendTold(s: State, id: Id, after: State)
    requires AllTold(s) && id in after.sends && after.sends == s.sends[id := after.sends[id]]
    requires forall other :: other != id ==> (WentOut(after, other) <==> WentOut(s, other))
    requires IsTold(after.sends[id], WentOut(after, id))
    ensures AllTold(after)
  {
    hide IsTold, WentOut;
  }

  lemma SameOut(s: State, after: State)
    requires after.network == s.network
    ensures forall id :: WentOut(after, id) <==> WentOut(s, id)
  {
  }

  lemma NewSendTold(expires: int, stage: Stage, aborted: bool, t1: int)
    requires stage.Waiting? || stage.Holding?
    ensures IsTold(
              if expires <= t1 then Send(expires, Over, Some(Expired), Story([t1], false, false, None))
              else
                Send(
                  expires, stage, if aborted then Some(NetworkUnavailable) else None,
                  Story([t1], aborted, false, None)),
              false)
  {
    ReadMore(Story([], expires > t1 && aborted, false, None), t1, expires);
    hide InTime;
  }

  lemma BeginTold(s: State, expires: int, aborted: bool, t1: int, t2: int)
    requires Inv(s) && AllTold(s)
    ensures AllTold(BeginStep(s, expires, aborted, t1, t2))
  {
    var base, after := s.(started := s.started + 1, clock := t2), BeginStep(s, expires, aborted, t1, t2);
    assert s.started !in s.sends && !WentOut(s, s.started);
    AuthorizeAside(base, t2);
    AuthorizeIsNotOver(base, t2);
    NewSendTold(expires, Authorize(base, t2).1, aborted, t1);
    hide Authorize, Inv, WentOut, AllTold, IsTold;
    SameOut(s, after);
    SendTold(s, s.started, after);
  }

  lemma AuthorizeIsNotOver(s: State, now: int)
    ensures Authorize(s, now).1.Waiting? || Authorize(s, now).1.Holding?
  {
  }

  lemma MovedTold(s: State, event: Event)
    requires AllTold(s) && (event.Wake? || event.Abort? || event.Answer? || event.Break?)
    ensures AllTold(Step(s, event))
  {
    var after := Step(s, event);
    SameNetwork(s, event);
    SameOut(s, after);
    if after != s {
      hide AllTold, WentOut;
      assert IsTold(s.sends[event.send], WentOut(s, event.send)) by { OneTold(s, event.send); }
      SendTold(s, event.send, after);
    }
  }

  lemma OneTold(s: State, id: Id)
    requires AllTold(s) && id in s.sends
    ensures IsTold(s.sends[id], WentOut(s, id))
  {
  }

  lemma ForwardTold(s: State, id: Id, t1: int)
    requires AllTold(s)
    ensures AllTold(ForwardStep(s, id, t1))
  {
    var after := ForwardStep(s, id, t1);
    if after != s {
      OneTold(s, id);
      ReadMore(s.sends[id].story, t1, s.sends[id].expires);
      hide AllTold, InTime;
      if after.network == s.network {
        SameOut(s, after);
      } else {
        MoreOut(s, after, id);
      }
      hide WentOut;
      SendTold(s, id, after);
    }
  }

  lemma MoreOut(s: State, after: State, id: Id)
    requires |after.network| == |s.network| + 1 && after.network[|s.network|].send == id
    requires after.network[..|s.network|] == s.network
    ensures WentOut(after, id) && forall other :: other != id ==> (WentOut(after, other) <==> WentOut(s, other))
  {
    forall other | WentOut(s, other)
      ensures WentOut(after, other)
    {
      var i :| 0 <= i < |s.network| && s.network[i].send == other;
      assert after.network[i] == s.network[i];
    }
    forall other | WentOut(after, other) && other != id
      ensures WentOut(s, other)
    {
      var i :| 0 <= i < |after.network| && after.network[i].send == other;
      assert after.network[i] == s.network[i];
    }
  }

  lemma StepTold(s: State, event: Event)
    requires Inv(s) && AllTold(s)
    ensures AllTold(Step(s, event))
  {
    hide AllTold, Inv;
    match event
    case Begin(expires, aborted, t1, t2) => BeginTold(s, expires, aborted, t1, t2);
    case Forward(send, t1) => ForwardTold(s, send, t1);
    case KeySettles(_) => QuietTold(s, event);
    case UseKey(_) => QuietTold(s, event);
    case Sign(_, _) => QuietTold(s, event);
    case _ => MovedTold(s, event);
  }

  lemma QuietTold(s: State, event: Event)
    requires AllTold(s) && (event.KeySettles? || event.UseKey? || event.Sign?)
    ensures AllTold(Step(s, event))
  {
    if !event.KeySettles? {
      FlightsAside(s, event);
    }
    SameNetwork(s, event);
    SameOut(s, Step(s, event));
    hide IsTold, WentOut, UseKeyStep, SignStep;
  }

  lemma {:induction false} RunTold(s: State, events: seq<Event>)
    requires Inv(s) && AllTold(s)
    ensures AllTold(Run(s, events))
  {
    if events != [] {
      RunTold(s, events[..|events| - 1]);
      RunKeeps(s, events[..|events| - 1]);
      StepTold(Run(s, events[..|events| - 1]), events[|events| - 1]);
    }
    hide Inv, AllTold, Step;
  }

  // ---------------------------------------------------------------- main results, over every run

  /** The answer of the provider decides, by its status and its reason. */
  predicate Answers(reply: Option<Reply>, verdict: Verdict) {
    && reply.Some? && reply.value.Responded?
    && var Responded(status, reason) := reply.value;
       match verdict
       case Accepted => status == 200
       case Unregistered => status == 410 && reason == "Unregistered"
       case Retryable => status == 429 || 500 <= status < 600
       case Mismatch => 200 < status < 500 && status != 429 && reason == "BadDeviceToken"
       case Rejection =>
         && 200 < status < 500 && status != 429 && reason != "BadDeviceToken"
         && !(status == 410 && reason == "Unregistered")
       case NetworkUnavailable => status < 200 || 599 < status
       case _ => false
  }

  lemma AnswersIffMeaning(reply: Option<Reply>, verdict: Verdict)
    requires reply.Some? && reply.value.Responded?
    ensures Answers(reply, verdict) <==> verdict == Meaning(reply.value)
  {
  }

  lemma ToldIsDue(send: Send, out: bool)
    requires IsTold(send, out) && send.verdict.Some?
    ensures var story, verdict := send.story, send.verdict.value;
            && (story.aborted ==> verdict == NetworkUnavailable)
            && (!story.aborted ==>
                && (verdict == Expired <==> exists t :: t in story.readings && send.expires <= t)
                && (verdict == NotConfigured <==> story.unauthorized)
                && (verdict != Expired && verdict != NotConfigured ==>
                    (story.reply == Some(Lost) && verdict == NetworkUnavailable) || Answers(story.reply, verdict)))
            && (FromProvider(verdict) ==> !story.aborted && Answers(story.reply, verdict))
  {
    var story, expires := send.story, send.expires;
    if !InTime(story, expires) {
      var i :| 0 <= i < |story.readings| && story.readings[i] >= expires;
      assert story.readings[i] in story.readings;
    }
    if story.reply.Some? && story.reply.value.Responded? {
      AnswersIffMeaning(story.reply, send.verdict.value);
    }
    hide Answers, Meaning;
  }

  /**
   * In every run each send that has a verdict has the one that is due, and it has one once it is over. One that was not
   * aborted is told
   * - `Expired` exactly if its expiry had come at a reading of the clock,
   * - `NotConfigured` exactly if there was no token for it,
   * - otherwise what the provider's answer means, as `Answers` lists it, or that the network is unavailable if there is
   *   no answer.
   */
  lemma VerdictsAreDue(wellFormed: bool, clock: int, events: seq<Event>, id: Id)
    requires id in After(wellFormed, clock, events).sends
    ensures var send := After(wellFormed, clock, events).sends[id];
            && (send.verdict.Some? <==>
                || send.story.aborted || send.story.unauthorized || send.story.reply.Some?
                || exists t :: t in send.story.readings && send.expires <= t)
            && (send.stage == Over ==> send.verdict.Some?)
            && (send.story.aborted ==> send.verdict == Some(NetworkUnavailable))
            && (send.verdict.Some? && !send.story.aborted ==>
                var verdict := send.verdict.value;
                && (verdict == Expired <==> exists t :: t in send.story.readings && send.expires <= t)
                && (verdict == NotConfigured <==> send.story.unauthorized)
                && (verdict != Expired && verdict != NotConfigured ==>
                    || (send.story.reply == Some(Lost) && verdict == NetworkUnavailable)
                    || Answers(send.story.reply, verdict)))
  {
    var s := After(wellFormed, clock, events);
    RunTold(Initial(wellFormed, clock), events);
    OneTold(s, id);
    hide After, WentOut, Run, Answers;
    var send := s.sends[id];
    if send.verdict.Some? {
      ToldIsDue(send, WentOut(s, id));
      if send.verdict == Some(Expired) && !send.story.aborted {
        assert exists t :: t in send.story.readings && send.expires <= t;
      }
    } else {
      assert forall t :: t in send.story.readings ==> t < send.expires;
    }
  }

  /**
   * In every run a send has gone out exactly if its expiry had not come at either of two readings of the clock: when it
   * began and once it had its token.
   */
  lemma OutIffInTime(wellFormed: bool, clock: int, events: seq<Event>, id: Id)
    requires id in After(wellFormed, clock, events).sends
    ensures var s := After(wellFormed, clock, events);
            var send := s.sends[id];
            && (WentOut(s, id) <==>
                |send.story.readings| == 2 && forall t :: t in send.story.readings ==> t < send.expires)
            && (send.story.reply.Some? ==> WentOut(s, id))
            && (send.stage == Over ==> send.verdict.Some?)
  {
    var s := After(wellFormed, clock, events);
    RunTold(Initial(wellFormed, clock), events);
    OneTold(s, id);
    hide After, WentOut, Run;
    var story := s.sends[id].story;
    assert forall i :: 0 <= i < |story.readings| ==> story.readings[i] in story.readings;
  }

  /** A send that holds a token, has no verdict and has not expired goes out with that token when it goes on. */
  lemma HeldSendGoesOut(wellFormed: bool, clock: int, events: seq<Event>, id: Id, token: Id, t1: int)
    requires var s := After(wellFormed, clock, events);
             id in s.sends && s.sends[id].stage == Holding(Token(token))
    ensures var s := After(wellFormed, clock, events);
            var after := Step(s, Forward(id, t1));
            if s.sends[id].verdict.None? && t1 < s.sends[id].expires
            then after.network == s.network + [Forwarded(id, token, t1)] && after.sends[id].stage == OnWire
            else after.network == s.network && after.sends[id].stage == Over && after.sends[id].verdict.Some?
  {
    hide After;
  }

  // ---------------------------------------------------------------- every send comes to an end

  /** How far the flight that a send waits for is from being settled. */
  function FlightRank(s: State, flight: Id): nat {
    if flight >= |s.flights| then 0
    else
      match s.flights[flight].progress
      case Settled(_) => 0
      case AwaitingSignature => 1
      case AwaitingKey => if s.key == Importing then 3 else 2
  }

  /** How far a send is from its end. */
  function Rank(s: State, send: Send): nat {
    match send.stage
    case Over => 0
    case OnWire => 1
    case Holding(_) => 2
    case Waiting(flight, _) => 3 + FlightRank(s, flight)
  }

  /** What a send waits for: the key, the signature, its turn or the network. `ok` and `reply` are up to them. */
  function Next(s: State, id: Id, ok: bool, t1: int, reply: Reply): Event
    requires id in s.sends
  {
    match s.sends[id].stage
    case Waiting(flight, _) =>
      if flight >= |s.flights| || s.flights[flight].progress.Settled? then Wake(id)
      else if s.flights[flight].progress.AwaitingSignature? then Sign(flight, ok)
      else if s.key == Importing then KeySettles(ok)
      else UseKey(flight)
    case Holding(_) => Forward(id, t1)
    case _ => if reply.Lost? then Break(id) else Answer(id, reply.status, reply.reason)
  }

  /**
   * In every reachable state, what a send waits for brings it closer to its end, however it turns out: a rejected key
   * and a failed signature too, and no send waits for ever unless one of these never comes.
   */
  lemma EverySendEnds(wellFormed: bool, clock: int, events: seq<Event>, id: Id, ok: bool, t1: int, reply: Reply)
    requires var s := After(wellFormed, clock, events); id in s.sends && s.sends[id].stage != Over
    ensures var s := After(wellFormed, clock, events);
            var after := Step(s, Next(s, id, ok, t1, reply));
            id in after.sends && Rank(after, after.sends[id]) < Rank(s, s.sends[id])
  {
    var s := After(wellFormed, clock, events);
    Invariant(wellFormed, clock, events);
    hide After, Minting, Sending;
    if s.sends[id].stage.Waiting? {
      WaitEnds(s, id, s.sends[id].stage.flight, ok, t1, reply);
    }
  }

  lemma WaitEnds(s: State, id: Id, flight: Id, ok: bool, t1: int, reply: Reply)
    requires SingleFlight(s) && Keys(s) && id in s.sends
    requires s.sends[id].stage.Waiting? && s.sends[id].stage.flight == flight
    ensures var after := Step(s, Next(s, id, ok, t1, reply));
            id in after.sends && Rank(after, after.sends[id]) < Rank(s, s.sends[id])
  {
    assert flight < |s.flights|;
    assert !s.flights[flight].progress.Settled? ==> Unsettled(s, flight);
    assert !s.flights[flight].progress.Settled? ==> s.key != NoKey;
    hide SingleFlight, Keys;
  }

  /** A flight fails exactly if its key or its signature does; otherwise it makes a token. */
  lemma FlightOutcome(s: State, flight: Id, ok: bool)
    requires flight < |s.flights|
    ensures s.flights[flight].progress.AwaitingKey? && s.key == Rejected ==>
              Step(s, UseKey(flight)).flights[flight].progress == Settled(Failed)
    ensures s.flights[flight].progress.AwaitingKey? && s.key == Imported ==>
              Step(s, UseKey(flight)).flights[flight].progress == AwaitingSignature
    ensures s.flights[flight].progress.AwaitingSignature? ==>
              Step(s, Sign(flight, ok)).flights[flight].progress == Settled(if ok then Token(flight) else Failed)
  {
  }
}
