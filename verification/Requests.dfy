/** What each request is answered, and which are accepted: apps/push-relay/src/relay.ts, `fetch` and `readRequest`. */
module Requests {
  import opened Base64
  import opened Limits
  import opened Relay
  import opened Validation
  import opened Wire
  import opened Wrappers
  import B = Body

  // ---------------------------------------------------------------- before the body

  /**
   * In every reachable state, the answer to a request as it comes in: the first of these that applies, or none if it
   * gets a slot. The two budgets are counted without bounds.
   */
  lemma FetchAnswers(
    s: State, events: seq<Event>, clock: int, request: Request, bindings: Bindings, t1: int, t2: int)
    requires Reachable(s, events, clock) && s.history.clock <= t1 <= t2
    ensures var outcome := EnterStep(s, request, bindings, t1, t2).1;
            var isolate := Total(s.history.gate, 60_000, WindowOf(t1, 60_000));
            var client := Count(s.history.ips, 60_000, request.client, WindowOf(t2, 60_000));
            if request.path != "/v1/send" then outcome == Replied(Reply(404, NotFound))
            else if request.verb != "POST" then outcome == Replied(Reply(405, MethodNotAllowed))
            else if |s.waiting| + |s.sending| == 32 then outcome == Replied(Reply(503, RelayBusy))
            else if isolate >= 600 || client >= 120 then outcome == Replied(Reply(429, RateLimited))
            else if bindings.config.None? || bindings.environments.None? then
              outcome == Replied(Reply(503, RelayNotConfigured))
            else if request.headerError.Some? then outcome == Replied(request.headerError.value)
            else
              && outcome == Suspended(s.history.taken)
              && EnterStep(s, request, bindings, t1, t2).0.waiting
                 == s.waiting[s.history.taken := Uploading(bindings.config.value, bindings.environments.value)]
  {
    LimitersAreUnbounded(s, events, clock, ISOLATE, t1);
    LimitersAreUnbounded(s, events, clock, request.client, t2);
    SlotAccounting(s, events, clock);
    hide Decide, Total, Count, WindowOf, Reachable;
  }

  // ---------------------------------------------------------------- the body

  /** What `JSON.parse` makes of the bytes, if they are the UTF-8 of a JSON text. Names in an object are distinct. */
  type Parser = Bytes -> Option<Json>

  ghost predicate IsParser(parse: Parser) {
    forall b, value :: parse(b) == Some(value) && value.Obj? ==> Distinct(value.fields)
  }

  /** What reading a body comes to: `readRequest` takes every other failure for an invalid request. */
  function Received(outcome: B.Outcome, parse: Parser): Body {
    match outcome
    case TooLarge => TooLarge
    case Timeout => TimedOut
    case Complete(bytes) => if parse(bytes).Some? then Parsed(parse(bytes).value) else Unreadable
    case _ => Unreadable
  }

  /** The verdict on a body, by what was received: every reply has its own reason, and the rest is accepted. */
  lemma JudgeExactly(body: Body, environments: seq<string>, t1: int, t2: int, r: SendRequest)
    requires body.Parsed? && body.value.Obj? ==> Distinct(body.value.fields)
    ensures var judged := Judge(body, environments, t1, t2);
            && (judged == Refused(Reply(413, RequestTooLarge)) <==> body.TooLarge?)
            && (judged == Refused(Reply(408, RequestTimeout)) <==> body.TimedOut?)
            && (judged == Refused(Reply(400, InvalidRequest)) <==>
                body.Unreadable? || (body.Parsed? && Validate(body.value, t1 / 1000) == None))
            && (judged == Refused(Reply(400, EnvironmentDisabled)) <==>
                body.Parsed? && Validate(body.value, t1 / 1000).Some?
                && Validate(body.value, t1 / 1000).value.environment !in environments)
            && (judged == Refused(Reply(200, Expired)) <==>
                body.Parsed? && Validate(body.value, t1 / 1000).Some?
                && Validate(body.value, t1 / 1000).value.environment in environments
                && Validate(body.value, t1 / 1000).value.expiresAt <= t2 / 1000)
            && (judged == Accepted(r) <==>
                && body.Parsed? && body.value.Obj? && IsRequestOf(body.value.fields, r)
                && AreRequestParts(r, t1 / 1000) && r.environment in environments && t2 / 1000 < r.expiresAt)
  {
    if body.Parsed? {
      AcceptedExactly(body.value, t1 / 1000, r);
    }
    hide Validate, IsRequestOf, AreRequestParts, Distinct;
  }

  predicate IsUploadOf(parsed: Option<Json>, r: SendRequest) {
    parsed.Some? && parsed.value.Obj? && IsRequestOf(parsed.value.fields, r)
  }

  /** What `readRequest` decides about a stream. */
  function Decided(stream: B.Stream, parse: Parser, environments: seq<string>, t1: int, t2: int): Judged {
    Judge(Received(B.Reading(stream, MAX_REQUEST_BYTES, 0, []), parse), environments, t1, t2)
  }

  /**
   * An upload is accepted as a request if and only if its stream ends, within the cap on reads, after at most 8192
   * bytes that are the JSON of that request, and that holds what it must, for an enabled environment and not expired.
   */
  lemma UploadAccepted(
    stream: B.Stream, parse: Parser, environments: seq<string>, t1: int, t2: int, r: SendRequest)
    requires IsParser(parse)
    ensures Decided(stream, parse, environments, t1, t2) == Accepted(r) <==>
            exists n: nat ::
              && B.Reaches(stream, 8192, n) && stream(n) == B.End
              && IsUploadOf(parse(B.Delivered(stream, n)), r) && AreRequestParts(r, t1 / 1000)
              && r.environment in environments && t2 / 1000 < r.expiresAt
  {
    var outcome := B.Reading(stream, 8192, 0, []);
    B.OutcomeExactly(stream, 8192, outcome);
    var body := Received(outcome, parse);
    JudgeExactly(body, environments, t1, t2, r);
    hide Judge, Validate, IsRequestOf, AreRequestParts, B.Reading, B.Reaches, Distinct;
    forall n: nat | B.Reaches(stream, 8192, n) && stream(n) == B.End
      ensures outcome == B.Complete(B.Delivered(stream, n))
    {
      B.OutcomeExactly(stream, 8192, B.Complete(B.Delivered(stream, n)));
    }
  }

  /**
   * It is refused as too large exactly if more than 8192 bytes come, and as timed out exactly if it was aborted, after
   * reads within the cap that delivered no more than that.
   */
  lemma UploadRefused(stream: B.Stream, parse: Parser, environments: seq<string>, t1: int, t2: int)
    requires IsParser(parse)
    ensures var judged := Decided(stream, parse, environments, t1, t2);
            && (judged == Refused(Reply(413, RequestTooLarge)) <==>
                exists n: nat ::
                  && B.Reaches(stream, 8192, n) && n <= 8192 && stream(n).Data?
                  && |B.Delivered(stream, n) + stream(n).bytes| > 8192)
            && (judged == Refused(Reply(408, RequestTimeout)) <==>
                exists n: nat :: B.Reaches(stream, 8192, n) && stream(n) == B.Aborted)
  {
    B.OutcomeExactly(stream, 8192, B.TooLarge);
    B.OutcomeExactly(stream, 8192, B.Timeout);
    hide Validate, B.Reading, B.Reaches, Distinct;
  }

  // ---------------------------------------------------------------- after the body

  /** A body is judged for the environments and goes on with the configuration that its request came in with. */
  lemma UploadIsJudged(
    s: State, id: Id, config: Config, environments: seq<string>, body: Body, t1: int, t2: int)
    requires id in s.waiting && s.waiting[id] == Uploading(config, environments)
    ensures var after := UploadStep(s, id, body, t1, t2).0;
            && id in after.waiting && after.waiting[id] == Ready(config, Judge(body, environments, t1, t2))
            && after.active == s.active && after.history == s.history.(clock := t2)
            && forall other :: other != id && other in s.waiting ==>
                 other in after.waiting && after.waiting[other] == s.waiting[other]
  {
    hide Judge;
  }

  /** A request that was refused is answered with its refusal: it spends no budget, and only gives its slot back. */
  lemma RefusalIsAnswered(s: State, id: Id, config: Config, reply: Reply, t1: int)
    requires id in s.waiting && s.waiting[id] == Ready(config, Refused(reply))
    ensures var (after, outcome) := ResumeStep(s, id, t1);
            && outcome == Replied(reply)
            && after.active == s.active - 1 && id !in after.waiting && id !in after.sending
            && after.targets == s.targets && after.history.targets == s.history.targets
            && after.history.released == s.history.released + [id]
            && after.transport == s.transport
  {
    hide Decide;
  }
}
