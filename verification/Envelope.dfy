/** Opening and showing a push notification on the device: apps/ios/NotificationShared/PushEnvelope.swift. */
module Envelope {
  import opened Wrappers
  import Base64
  import Uuids

  const MIN: int := -0x8000_0000_0000_0000
  const MAX: int := 0x7FFF_FFFF_FFFF_FFFF

  type Int64 = n: int | MIN <= n <= MAX

  /** Swift's `+` on `Int` stops the program when the sum does not fit. */
  function Plus(a: Int64, b: Int64): Int64
    requires MIN <= a + b <= MAX
  {
    a + b
  }

  /** What is left of a number in 64 bits, and whether that differs from it. */
  function Wrapped(n: int): (r: (Int64, bool))
    ensures r.1 <==> !(MIN <= n <= MAX)
    ensures !r.1 ==> r.0 == n
  {
    var low := n % 0x1_0000_0000_0000_0000;
    (if low > MAX then low - 0x1_0000_0000_0000_0000 else low, !(MIN <= n <= MAX))
  }

  function AddingReportingOverflow(a: Int64, b: Int64): (Int64, bool) {
    Wrapped(a + b)
  }

  function SubtractingReportingOverflow(a: Int64, b: Int64): (Int64, bool) {
    Wrapped(a - b)
  }

  // ---------------------------------------------------------------- the content

  datatype TaskRun = TaskRun(
    taskId: string, runId: string, total: Int64, failed: Int64, timedOut: Int64, offline: Int64, denied: Int64)

  datatype Alert = Alert(alertKey: string, status: string, ruleName: string, serverName: string)

  datatype PushContent = PushContent(
    kind: string, deploymentId: string, userId: string, installationId: string, eventId: string,
    createdAt: Int64, expiresAt: Int64, taskRun: Option<TaskRun>, alert: Option<Alert>,
    serverId: Option<string>, securityEventId: Option<string>, securityEventType: Option<string>)

  datatype PushEnvelope = PushEnvelope(
    version: Int64, keyId: string, identity: string, nonce: string, ciphertext: string)

  datatype PushContentKey = PushContentKey(
    keyId: string, key: string, deploymentId: string, userId: string, installationId: string)

  /**
   * What the platform does: opening a sealed box into content, from a secret, a nonce, the ciphertext, its tag and the
   * data that goes with it; hashing an identity; and reading a list of strings.
   */
  datatype Platform = Platform(
    open: (Base64.Bytes, Base64.Bytes, Base64.Bytes, Base64.Bytes, string) -> Option<PushContent>,
    identity: (string, string, string) -> string,
    strings: Base64.Bytes -> Option<seq<string>>)

  predicate IsUuid(s: string) {
    Uuids.IsUuid(s, true)
  }

  // ---------------------------------------------------------------- targets

  predicate IsPart(n: Int64, total: Int64) {
    0 <= n <= total
  }

  /** `TaskRunPushSummary.isValid` */
  predicate RunIsValid(run: TaskRun) {
    if !(IsUuid(run.taskId) && IsUuid(run.runId) && run.total > 0 && run.total <= 100_000
         && IsPart(run.failed, run.total) && IsPart(run.timedOut, run.total)
         && IsPart(run.offline, run.total) && IsPart(run.denied, run.total))
    then false
    else
      var failures := Plus(Plus(Plus(run.failed, run.timedOut), run.offline), run.denied);
      failures <= run.total
  }

  /** `TaskRunPushSummary.isSuccess` */
  predicate RunIsSuccess(run: TaskRun) {
    RunIsValid(run) && run.failed == 0 && run.timedOut == 0 && run.offline == 0 && run.denied == 0
  }

  predicate AreAlertParts(parts: Option<seq<string>>) {
    parts.Some? && |parts.value| == 4 && parts.value[0] != "" && parts.value[1] != "" && parts.value[3] != ""
  }

  predicate IsStatus(status: string) {
    status == "firing" || status == "resolved"
  }

  /** `AlertPushTarget.isValid` */
  predicate AlertIsValid(alert: Alert, platform: Platform, prefix: string)
    requires |prefix| == 3
  {
    && IsStatus(alert.status)
    && prefix <= alert.alertKey && |alert.alertKey| <= 4099
    && var encoded := Base64.Repadded(alert.alertKey[3..]);
       Base64.Matches(encoded) && AreAlertParts(platform.strings(Base64.Decode(encoded)))
  }

  const ALERT_PREFIX := "v1."

  /** A key made from the unpadded URL form of some bytes is read as exactly those bytes. */
  lemma AlertKeyIsRead(alert: Alert, platform: Platform, prefix: string, bytes: Base64.Bytes)
    requires |prefix| == 3 && alert.alertKey == prefix + Base64.UrlForm(Base64.Encode(bytes))
    ensures AlertIsValid(alert, platform, prefix) <==>
            IsStatus(alert.status) && |alert.alertKey| <= 4099 && AreAlertParts(platform.strings(bytes))
  {
    Base64.UrlRoundTrip(bytes);
    assert alert.alertKey[3..] == Base64.UrlForm(Base64.Encode(bytes));
    hide Base64.UrlForm, Base64.Encode, Base64.Decode, Base64.Matches, Base64.Repadded, AreAlertParts, IsStatus;
  }

  /**
   * An alert whose key is the prefix and the unpadded URL form of some bytes is valid exactly if its status is one of
   * the two, the key is not too long, and the platform reads the bytes as four parts of which the named ones are there.
   */
  method CheckAlert(alert: Alert, platform: Platform) returns (valid: bool)
    ensures forall bytes: Base64.Bytes ::
              alert.alertKey == ALERT_PREFIX + Base64.UrlForm(Base64.Encode(bytes)) ==>
                (valid <==>
                 IsStatus(alert.status) && |alert.alertKey| <= 4099 && AreAlertParts(platform.strings(bytes)))
    ensures valid ==> ALERT_PREFIX <= alert.alertKey
    ensures valid == AlertIsValid(alert, platform, ALERT_PREFIX)
  {
    forall bytes: Base64.Bytes | alert.alertKey == ALERT_PREFIX + Base64.UrlForm(Base64.Encode(bytes))
      ensures AlertIsValid(alert, platform, ALERT_PREFIX) <==>
              IsStatus(alert.status) && |alert.alertKey| <= 4099 && AreAlertParts(platform.strings(bytes))
    {
      AlertKeyIsRead(alert, platform, ALERT_PREFIX, bytes);
    }
    hide IsStatus, AreAlertParts, Base64.Matches, Base64.Decode, Base64.Repadded, Base64.UrlForm, Base64.Encode;
    if !(IsStatus(alert.status) && ALERT_PREFIX <= alert.alertKey && |alert.alertKey| <= 4099) {
      return false;
    }
    var encoded := Base64.Repad(alert.alertKey[3..]);
    if !Base64.Matches(encoded) {
      return false;
    }
    var parts := platform.strings(Base64.Decode(encoded));
    return AreAlertParts(parts);
  }

  // ---------------------------------------------------------------- opening

  datatype Purpose = Delivery | NotificationTap

  /** Base64 text of a number of bytes in bounds. */
  predicate IsData(v: string, min: nat, max: nat) {
    Base64.Matches(v) && min <= |Base64.Decode(v)| <= max
  }

  predicate IsSealed(envelope: PushEnvelope, key: PushContentKey) {
    && envelope.version == 1 && envelope.keyId == key.keyId && |envelope.ciphertext| <= 2760
    && IsData(key.key, 32, 32) && IsData(envelope.nonce, 12, 12) && IsData(envelope.ciphertext, 16, 2064)
  }

  function Open(platform: Platform, envelope: PushEnvelope, key: PushContentKey): Option<PushContent> {
    if !IsSealed(envelope, key) then None
    else
      var sealed := Base64.Decode(envelope.ciphertext);
      var n := |sealed| - TAG_BYTES;
      platform.open(
        Base64.Decode(key.key), Base64.Decode(envelope.nonce), sealed[..n], sealed[n..],
        Aad(envelope))
  }

  const TAG_BYTES: nat := 16

  /** The data that goes with the ciphertext. */
  function Aad(envelope: PushEnvelope): string {
    "ServerBee.Push.v1|" + envelope.keyId + "|" + envelope.identity
  }

  /** The content is for this device and names its event. */
  predicate Belongs(platform: Platform, c: PushContent, envelope: PushEnvelope, key: PushContentKey) {
    && c.deploymentId == key.deploymentId && c.userId == key.userId && c.installationId == key.installationId
    && platform.identity(c.deploymentId, c.userId, c.installationId) == envelope.identity
    && IsUuid(c.eventId)
  }

  predicate NoTarget(c: PushContent) {
    c.taskRun.None? && c.alert.None? && NoSecurity(c)
  }

  predicate NoSecurity(c: PushContent) {
    c.serverId.None? && c.securityEventId.None? && c.securityEventType.None?
  }

  /** The optional parts are those the kind calls for. */
  predicate HasItsTarget(platform: Platform, c: PushContent) {
    if c.kind == "test" then NoTarget(c)
    else if c.kind == "alert" then
      c.taskRun.None? && c.alert.Some? && AlertIsValid(c.alert.value, platform, ALERT_PREFIX) && NoSecurity(c)
    else if c.kind == "task_failure" || c.kind == "task_success" then
      && c.alert.None? && NoSecurity(c) && c.taskRun.Some? && RunIsValid(c.taskRun.value)
      && RunIsSuccess(c.taskRun.value) == (c.kind == "task_success")
      && c.eventId == c.taskRun.value.runId
    else if c.kind == "security" then
      && c.taskRun.None? && c.alert.None? && c.serverId.Some? && IsUuid(c.serverId.value)
      && c.securityEventId == Some(c.eventId)
      && c.securityEventType.Some? && IsSecurityEvent(c.securityEventType.value)
    else false
  }

  predicate IsSecurityEvent(name: string) {
    name == "ssh_login" || name == "ssh_brute_force" || name == "port_scan"
  }

  /** `PushEnvelopeDecoder.decrypt`: the content, or nothing. */
  function Decrypt(
    platform: Platform, envelope: PushEnvelope, key: PushContentKey, now: Int64, purpose: Purpose)
    : Option<PushContent>
  {
    match Open(platform, envelope, key)
    case None => None
    case Some(c) =>
      var (lifetime, lifetimeOverflow) := SubtractingReportingOverflow(c.expiresAt, c.createdAt);
      var (futureLimit, futureOverflow) := AddingReportingOverflow(now, 60);
      var allowsCurrentTime := purpose == NotificationTap || c.expiresAt > now;
      if !(Belongs(platform, c, envelope, key) && allowsCurrentTime && !futureOverflow && c.createdAt <= futureLimit
           && !lifetimeOverflow && lifetime == 1800)
      then None
      else if HasItsTarget(platform, c) then Some(c)
      else None
  }

  /** What time has no part in. */
  predicate IsAuthentic(platform: Platform, envelope: PushEnvelope, key: PushContentKey, c: PushContent) {
    && Open(platform, envelope, key) == Some(c) && Belongs(platform, c, envelope, key) && HasItsTarget(platform, c)
    && c.expiresAt - c.createdAt == 1800
  }

  /** The clock is far enough from the end of 64 bits for a minute's grace. */
  predicate ClockHasRoom(now: Int64) {
    now <= MAX - 60
  }

  /**
   * Content is delivered from a minute before it was made until it expires, half an hour after, by a clock that has
   * room; a tap opens it for ever after.
   */
  lemma DeliveryWindow(platform: Platform, envelope: PushEnvelope, key: PushContentKey, now: Int64, c: PushContent)
    ensures Decrypt(platform, envelope, key, now, Delivery) == Some(c) <==>
            IsAuthentic(platform, envelope, key, c) && c.createdAt - 60 <= now < c.createdAt + 1800 && ClockHasRoom(now)
    ensures Decrypt(platform, envelope, key, now, NotificationTap) == Some(c) <==>
            IsAuthentic(platform, envelope, key, c) && c.createdAt - 60 <= now && ClockHasRoom(now)
  {
    hide Open, Belongs, HasItsTarget;
  }

  /** Delivery accepts what a tap does, until it expires. */
  lemma DeliveryIsTimelyTap(platform: Platform, envelope: PushEnvelope, key: PushContentKey, now: Int64, c: PushContent)
    ensures Decrypt(platform, envelope, key, now, Delivery) == Some(c) <==>
            Decrypt(platform, envelope, key, now, NotificationTap) == Some(c) && now < c.expiresAt
  {
    DeliveryWindow(platform, envelope, key, now, c);
    hide Decrypt, Open, Belongs, HasItsTarget;
  }

  /** Authentic content is accepted throughout its window exactly by clocks that have room. */
  lemma WindowNeedsRoom(platform: Platform, envelope: PushEnvelope, key: PushContentKey, now: Int64, c: PushContent)
    requires IsAuthentic(platform, envelope, key, c) && c.createdAt - 60 <= now < c.createdAt + 1800
    ensures Decrypt(platform, envelope, key, now, Delivery) == Some(c) <==> ClockHasRoom(now)
  {
    DeliveryWindow(platform, envelope, key, now, c);
    hide Decrypt, IsAuthentic;
  }

  /** A clock without room in the window of some content: the grace overflows and the content is refused. */
  lemma RoomCanLack(platform: Platform, envelope: PushEnvelope, key: PushContentKey, c: PushContent)
    requires IsAuthentic(platform, envelope, key, c) && c.createdAt == MAX - 1800
    ensures Decrypt(platform, envelope, key, MAX - 1, Delivery) == None
    ensures c.createdAt - 60 <= MAX - 1 < c.createdAt + 1800
  {
    hide Open, Belongs, HasItsTarget;
  }

  // ---------------------------------------------------------------- showing

  datatype Title =
    ServerBee | AlertRecovered | AlertTriggered | RunSucceeded | RunFailed | RuleMatched | TestNotification

  datatype Body =
    | OpenServerBee
    | RuleOnServer(rule: string, server: string)
    | AllSucceeded(total: Int64)
    | Outcomes(run: TaskRun)
    | SecurityMatched(eventType: string)
    | Ready

  /** What the notification says, by its kind. */
  function TitleOf(c: PushContent): Title {
    if c.kind == "alert" then
      if c.alert.Some? && c.alert.value.status == "firing" then AlertTriggered else AlertRecovered
    else if c.kind == "task_success" then RunSucceeded
    else if c.kind == "task_failure" then RunFailed
    else if c.kind == "security" then RuleMatched
    else TestNotification
  }

  predicate BodyFits(c: PushContent, body: Body) {
    match body
    case OpenServerBee => false
    case RuleOnServer(rule, server) =>
      && c.kind == "alert" && c.alert.Some?
      && rule == c.alert.value.ruleName && server == c.alert.value.serverName
    case AllSucceeded(total) => c.kind == "task_success" && c.taskRun.Some? && total == c.taskRun.value.total
    case Outcomes(run) => c.kind == "task_failure" && c.taskRun == Some(run)
    case SecurityMatched(eventType) => c.kind == "security" && c.securityEventType == Some(eventType)
    case Ready => c.kind == "test"
  }

  class NotificationContent {
    var title: Title
    var body: Body
    var target: Option<(PushContent, string, PushEnvelope)>

    constructor ()
      ensures title == ServerBee && body == OpenServerBee && target == None
    {
      title, body, target := ServerBee, OpenServerBee, None;
    }
  }

  /**
   * The branch the renderer takes is picked from the parts that are there; an accepted content's kind always agrees.
   */
  lemma KindsAgree(platform: Platform, c: PushContent)
    requires HasItsTarget(platform, c)
    ensures c.alert.Some? <==> c.kind == "alert"
    ensures c.taskRun.Some? <==> c.kind == "task_success" || c.kind == "task_failure"
    ensures c.taskRun.Some? ==> (RunIsSuccess(c.taskRun.value) <==> c.kind == "task_success")
    ensures c.kind == "security" <==> c.securityEventType.Some?
    ensures c.serverId.Some? <==> c.kind == "security"
    ensures c.securityEventId == if c.kind == "security" then Some(c.eventId) else None
    ensures c.kind == "security" ==> IsSecurityEvent(c.securityEventType.value)
    ensures c.alert.Some? ==> c.alert.value.status == "firing" || c.alert.value.status == "resolved"
    ensures c.kind in {"test", "alert", "task_success", "task_failure", "security"}
  {
    hide IsUuid, RunIsValid, RunIsSuccess, Base64.Matches, Base64.Decode, Base64.Repadded;
  }

  /** Title and text for an accepted content, by which of its parts are there. */
  method Describe(platform: Platform, content: PushContent) returns (title: Title, body: Body)
    requires HasItsTarget(platform, content)
    ensures title == TitleOf(content) && BodyFits(content, body)
    ensures content.kind == "test" ==> title == TestNotification && body == Ready
    ensures content.kind == "alert" ==>
              && content.alert.Some?
              && var alert := content.alert.value;
                 && title == (if alert.status == "resolved" then AlertRecovered else AlertTriggered)
                 && body == RuleOnServer(alert.ruleName, alert.serverName)
    ensures content.kind == "task_success" ==>
              title == RunSucceeded && content.taskRun.Some? && body == AllSucceeded(content.taskRun.value.total)
    ensures content.kind == "task_failure" ==>
              title == RunFailed && content.taskRun.Some? && body == Outcomes(content.taskRun.value)
    ensures content.kind == "security" ==>
              && title == RuleMatched && content.securityEventType.Some?
              && body == SecurityMatched(content.securityEventType.value)
  {
    KindsAgree(platform, content);
    hide HasItsTarget, RunIsSuccess;
    if content.alert.Some? {
      var alert := content.alert.value;
      title := if alert.status == "resolved" then AlertRecovered else AlertTriggered;
      body := RuleOnServer(alert.ruleName, alert.serverName);
    } else if content.taskRun.Some? {
      var run := content.taskRun.value;
      if RunIsSuccess(run) {
        title, body := RunSucceeded, AllSucceeded(run.total);
      } else {
        title, body := RunFailed, Outcomes(run);
      }
    } else if content.kind == "security" {
      title := RuleMatched;
      if content.securityEventType == Some("ssh_login") {
        body := SecurityMatched("ssh_login");
      } else if content.securityEventType == Some("ssh_brute_force") {
        body := SecurityMatched("ssh_brute_force");
      } else {
        body := SecurityMatched("port_scan");
      }
    } else {
      title, body := TestNotification, Ready;
    }
  }

  /** `PushNotificationRenderer.render`, of an envelope that was found in the notification, if one was. */
  method Render(platform: Platform, found: Option<PushEnvelope>, key: Option<PushContentKey>, now: Int64)
    returns (result: NotificationContent)
    ensures fresh(result)
    ensures var c := if found.Some? && key.Some? then Decrypt(platform, found.value, key.value, now, Delivery)
            else None;
            && (c.None? ==> result.title == ServerBee && result.body == OpenServerBee && result.target == None)
            && (c.Some? ==> result.title == TitleOf(c.value) && BodyFits(c.value, result.body)
                            && result.target == Some((c.value, key.value.keyId, found.value)))
  {
    hide *;
    result := new NotificationContent();
    if found == None || key == None {
      return;
    }
    var decrypted := Decrypt(platform, found.value, key.value, now, Delivery);
    if decrypted == None {
      return;
    }
    DecryptedHasItsTarget(platform, found.value, key.value, now);
    result.title, result.body := Describe(platform, decrypted.value);
    result.target := Some((decrypted.value, key.value.keyId, found.value));
  }

  lemma DecryptedHasItsTarget(platform: Platform, envelope: PushEnvelope, key: PushContentKey, now: Int64)
    ensures var c := Decrypt(platform, envelope, key, now, Delivery); c.Some? ==> HasItsTarget(platform, c.value)
  {
    hide Open, Belongs, HasItsTarget;
  }

  /** A run that is shown as a success had no failure of any kind, and its other counts never exceed its targets. */
  lemma ShownRun(platform: Platform, c: PushContent)
    requires HasItsTarget(platform, c) && c.taskRun.Some?
    ensures var run := c.taskRun.value;
            && 0 < run.total <= 100_000 && 0 <= run.failed + run.timedOut + run.offline + run.denied <= run.total
            && (c.kind == "task_success" <==> run.failed + run.timedOut + run.offline + run.denied == 0)
            && c.eventId == run.runId && IsUuid(run.taskId)
  {
    hide IsUuid, AlertIsValid;
  }
}
